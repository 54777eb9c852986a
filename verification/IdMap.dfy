/**
The bitmap id allocator of oldsrc/idmap.cc.  A word of the page is represented by the set of its one
bits.  The word index of an id is `id >> (sizeof(unsigned long) + 1)`, as the code has it: with 8-byte
words a word of 64 bits serves 512 ids, so ids share bits; with 4-byte words each id has its own.
 */
module IdMap {

  /** 2^15, the number of ids and of bits in a page. */
  const ID_MAX: nat := 0x8000

  datatype WordSize = Word32 | Word64

  /** The word shift is 4 + 1 or 8 + 1, so 32 or 512 consecutive ids fall into one word. */
  function WordOf(w: WordSize, id: nat): nat {
    if w == Word32 then id / 32 else id / 512
  }

  /** The bit within the word is the id modulo the word's 32 or 64 bits. */
  function BitOf(w: WordSize, id: nat): nat {
    if w == Word32 then id % 32 else id % 64
  }

  predicate SameSlot(w: WordSize, a: nat, b: nat) {
    WordOf(w, a) == WordOf(w, b) && BitOf(w, a) == BitOf(w, b)
  }

  lemma SameBitIff(a: nat, b: nat)
    ensures a % 64 == b % 64 <==> (a - b) % 64 == 0
  {
    var q, r := a / 64 - b / 64, a % 64 - b % 64;
    assert a - b == q * 64 + r;
  }

  /** Which ids share a slot: with 4-byte words only equal ones; with 8-byte words those of the same
      block of 512 that are a multiple of 64 apart. */
  lemma SameSlotIff(w: WordSize, a: nat, b: nat)
    ensures w == Word32 ==> (SameSlot(w, a, b) <==> a == b)
    ensures w == Word64 ==> (SameSlot(w, a, b) <==> a / 512 == b / 512 && (a - b) % 64 == 0)
  {
    if w == Word64 { SameBitIff(a, b); }
  }

  /** Ids have slots of their own exactly with 4-byte words. */
  lemma SlotsDistinctIff(w: WordSize)
    ensures w == Word32 <==> forall a: nat, b: nat :: a < b < ID_MAX ==> !SameSlot(w, a, b)
  {
    if w == Word64 {
      assert SameSlot(w, 0, 64);
    }
  }

  /** No two ids of the set share a slot. */
  ghost predicate OwnSlots(w: WordSize, live: set<nat>) {
    forall a, b :: a in live && b in live && SameSlot(w, a, b) ==> a == b
  }

  ghost predicate SlotTaken(w: WordSize, live: set<nat>, id: nat) {
    exists a :: a in live && SameSlot(w, a, id)
  }

  function SlotNumber(w: WordSize, id: nat): nat {
    if w == Word32 then WordOf(w, id) * 32 + BitOf(w, id) else WordOf(w, id) * 64 + BitOf(w, id)
  }

  /** 32768 ids make 1024 words of 32 bits or 64 words of 64 bits. */
  function SlotCount(w: WordSize): nat {
    if w == Word32 then 1024 * 32 else 64 * 64
  }

  lemma SlotNumberUnique(w: WordSize, a: nat, b: nat)
    requires a < ID_MAX && b < ID_MAX
    ensures SlotNumber(w, a) == SlotNumber(w, b) <==> SameSlot(w, a, b)
    ensures SlotNumber(w, a) < SlotCount(w)
  {
  }

  lemma {:induction false} CountBelow(s: set<nat>, n: nat)
    requires forall x :: x in s ==> x < n
    ensures |s| <= n
  {
    if n == 0 {
      assert s == {};
    } else {
      CountBelow(s - {n - 1}, n - 1);
    }
  }

  /** Distinct numbers below n are at most n. */
  lemma {:induction false} InjectiveBelow(s: set<nat>, f: nat -> nat, n: nat)
    requires forall a, b :: a in s && b in s && f(a) == f(b) ==> a == b
    ensures |set x | x in s && f(x) < n| <= n
  {
    var here := set x | x in s && f(x) < n;
    if n == 0 {
      assert here == {};
    } else {
      InjectiveBelow(s, f, n - 1);
      var below := set x | x in s && f(x) < n - 1;
      if y :| y in s && f(y) == n - 1 {
        assert here == below + {y};
      } else {
        assert here == below;
      }
    }
  }

  /** At most as many ids are live as there are slots: 32768 with 4-byte words, 4096 with 8-byte ones. */
  lemma LiveFits(w: WordSize, live: set<nat>)
    requires OwnSlots(w, live) && forall id :: id in live ==> id < ID_MAX
    ensures |live| <= SlotCount(w) == if w == Word32 then 32768 else 4096
  {
    var f := (id: nat) => SlotNumber(w, id);
    forall a, b | a in live && b in live && f(a) == f(b) ensures a == b { SlotNumberUnique(w, a, b); }
    InjectiveBelow(live, f, SlotCount(w));
    forall id | id in live ensures f(id) < SlotCount(w) { SlotNumberUnique(w, id, id); }
    assert live == set id | id in live && f(id) < SlotCount(w);
  }

  // ---------------------------------------------------------------- the order of allocation

  /** What one call of `Allocate` answers, and the state it leaves: the live ids and the last id. */
  ghost predicate Allocates(w: WordSize, live: set<nat>, last: int, id: int, live': set<nat>, last': int) {
    var start := (last + 1) % ID_MAX;
    && -1 <= id < ID_MAX
    && (id == -1 ==>
          && (forall k: nat :: start <= k < ID_MAX ==> SlotTaken(w, live, k))
          && live' == live && last' == last)
    && (id != -1 ==>
          && start <= id && !SlotTaken(w, live, id)
          && (forall k: nat :: start <= k < id ==> SlotTaken(w, live, k))
          && live' == live + {id} && last' == id)
  }

  /** The n-th id: with 8-byte words the first 64 of each block of 512. */
  function NthId(w: WordSize, n: nat): nat {
    if w == Word32 then n else n / 64 * 512 + n % 64
  }

  ghost function FirstIds(w: WordSize, n: nat): set<nat> {
    set k | 0 <= k < n :: NthId(w, k)
  }

  lemma NthHasSlot(w: WordSize, n: nat)
    requires n < SlotCount(w)
    ensures SlotNumber(w, NthId(w, n)) == n && NthId(w, n) < ID_MAX
  {
  }

  /** After n allocations exactly the first n slots are taken. */
  lemma FirstSlots(w: WordSize, n: nat, id: nat)
    requires n <= SlotCount(w) && id < ID_MAX
    ensures SlotTaken(w, FirstIds(w, n), id) <==> SlotNumber(w, id) < n
  {
    if SlotTaken(w, FirstIds(w, n), id) {
      var k: nat :| k < n && SameSlot(w, NthId(w, k), id);
      NthHasSlot(w, k);
      SlotNumberUnique(w, NthId(w, k), id);
    }
    if SlotNumber(w, id) < n {
      var k := SlotNumber(w, id);
      NthHasSlot(w, k);
      SlotNumberUnique(w, NthId(w, k), id);
      assert NthId(w, k) in FirstIds(w, n);
    }
  }

  /** Between two consecutive ids all slots are taken. */
  lemma NoSlotBetween(w: WordSize, n: nat, id: nat)
    requires 0 < n < SlotCount(w) && NthId(w, n - 1) < id < NthId(w, n)
    ensures SlotNumber(w, id) < n
  {
  }

  lemma NthGrows(w: WordSize, n: nat)
    requires 0 < n < SlotCount(w)
    ensures NthId(w, n - 1) < NthId(w, n)
  {
  }

  /** The next id is the first one from the last on whose slot is clear. */
  lemma NthIsNext(w: WordSize, n: nat, id: nat)
    requires n < SlotCount(w) && id < ID_MAX && (0 < n ==> NthId(w, n - 1) < id)
    ensures id < NthId(w, n) ==> SlotTaken(w, FirstIds(w, n), id)
    ensures id == NthId(w, n) ==> !SlotTaken(w, FirstIds(w, n), id)
  {
    FirstSlots(w, n, id);
    NthHasSlot(w, n);
    if 0 < n && id < NthId(w, n) { NoSlotBetween(w, n, id); }
  }

  lemma NextAllocation(w: WordSize, n: nat, id: int, live': set<nat>, last': int)
    requires n < SlotCount(w)
    requires Allocates(w, FirstIds(w, n), if n == 0 then -1 else NthId(w, n - 1), id, live', last')
    ensures id == NthId(w, n) && live' == FirstIds(w, n + 1) && last' == id
  {
    var next := NthId(w, n);
    NthHasSlot(w, n);
    if 0 < n { NthGrows(w, n); }
    NthIsNext(w, n, next);
    if id != -1 && id != next { NthIsNext(w, n, id); }
    assert FirstIds(w, n + 1) == FirstIds(w, n) + {next};
  }

  lemma FullAllocation(w: WordSize, id: int, live': set<nat>, last': int)
    requires Allocates(w, FirstIds(w, SlotCount(w)), NthId(w, SlotCount(w) - 1), id, live', last')
    ensures id == -1 && live' == FirstIds(w, SlotCount(w)) && last' == NthId(w, SlotCount(w) - 1)
  {
    if id != -1 {
      FirstSlots(w, SlotCount(w), id);
      SlotNumberUnique(w, id, id);
    }
  }

  lemma {:induction false} AllocatedSoFar(w: WordSize, ids: seq<int>, lives: seq<set<nat>>, lasts: seq<int>, n: nat)
    requires |lives| == |lasts| == |ids| + 1 && lives[0] == {} && lasts[0] == -1 && n <= |ids|
    requires forall k :: 0 <= k < |ids| ==> Allocates(w, lives[k], lasts[k], ids[k], lives[k + 1], lasts[k + 1])
    ensures n <= SlotCount(w) ==> lives[n] == FirstIds(w, n) && lasts[n] == if n == 0 then -1 else NthId(w, n - 1)
    ensures SlotCount(w) <= n ==> lives[n] == FirstIds(w, SlotCount(w)) && lasts[n] == NthId(w, SlotCount(w) - 1)
  {
    if n != 0 {
      AllocatedSoFar(w, ids, lives, lasts, n - 1);
      if n <= SlotCount(w) {
        NextAllocation(w, n - 1, ids[n - 1], lives[n], lasts[n]);
      } else {
        FullAllocation(w, ids[n - 1], lives[n], lasts[n]);
      }
    }
  }

  /** A new allocator that is only asked for ids: with 4-byte words it hands out 0, 1, 2 and so on up to
      32767; with 8-byte words 0 to 63, then 512 to 575, then 1024 and so on, 4096 in all; and from
      then on -1. */
  lemma AllocationOrder(w: WordSize, ids: seq<int>, lives: seq<set<nat>>, lasts: seq<int>, n: nat)
    requires |lives| == |lasts| == |ids| + 1 && lives[0] == {} && lasts[0] == -1 && n < |ids|
    requires forall k :: 0 <= k < |ids| ==> Allocates(w, lives[k], lasts[k], ids[k], lives[k + 1], lasts[k + 1])
    ensures w == Word32 ==> ids[n] == if n < 32768 then n else -1
    ensures w == Word64 ==> ids[n] == if n < 4096 then n / 64 * 512 + n % 64 else -1
  {
    AllocatedSoFar(w, ids, lives, lasts, n);
    if n < SlotCount(w) {
      NextAllocation(w, n, ids[n], lives[n + 1], lasts[n + 1]);
    } else {
      FullAllocation(w, ids[n], lives[n + 1], lasts[n + 1]);
    }
  }

  // ---------------------------------------------------------------- the page

  /** A bit of the page is set exactly when a live id has that slot. */
  ghost predicate Mirrors(w: WordSize, page: seq<set<nat>>, live: set<nat>) {
    && 1024 <= |page|
    && forall id: nat :: id < ID_MAX ==> (BitOf(w, id) in page[WordOf(w, id)] <==> SlotTaken(w, live, id))
  }

  lemma NewHasOwnSlot(w: WordSize, live: set<nat>, id: nat)
    requires OwnSlots(w, live) && !SlotTaken(w, live, id)
    ensures OwnSlots(w, live + {id}) && id !in live
  {
  }

  lemma FewerKeepSlots(w: WordSize, live: set<nat>, id: nat)
    requires OwnSlots(w, live)
    ensures OwnSlots(w, live - {id})
  {
  }

  /** Setting the bit of a new id, and clearing that of a live one, keep the page up to date. */
  lemma SetMirrors(w: WordSize, page: seq<set<nat>>, live: set<nat>, id: nat)
    requires Mirrors(w, page, live) && id < ID_MAX
    ensures Mirrors(w, page[WordOf(w, id) := page[WordOf(w, id)] + {BitOf(w, id)}], live + {id})
  {
  }

  /** The page without the bit of an id. */
  function Cleared(w: WordSize, page: seq<set<nat>>, id: nat): seq<set<nat>>
    requires 1024 <= |page| && id < ID_MAX
  {
    page[WordOf(w, id) := page[WordOf(w, id)] - {BitOf(w, id)}]
  }

  lemma ClearMirrors(w: WordSize, page: seq<set<nat>>, live: set<nat>, id: nat)
    requires Mirrors(w, page, live) && id < ID_MAX && id in live && OwnSlots(w, live)
    ensures Mirrors(w, Cleared(w, page, id), live - {id})
  {
  }

  /** Clearing keeps the page true exactly when the id is live or nobody live has its slot.  With
      8-byte words a stray id can free the slot of a live one. */
  lemma ClearedIff(w: WordSize, page: seq<set<nat>>, live: set<nat>, id: nat)
    requires Mirrors(w, page, live) && OwnSlots(w, live) && id < ID_MAX
    ensures Mirrors(w, Cleared(w, page, id), live - {id}) <==> id in live || !SlotTaken(w, live, id)
  {
    if id in live {
      ClearMirrors(w, page, live, id);
    } else {
      assert live - {id} == live;
      assert BitOf(w, id) in page[WordOf(w, id)] <==> SlotTaken(w, live, id);
      if !SlotTaken(w, live, id) {
        assert page[WordOf(w, id)] - {BitOf(w, id)} == page[WordOf(w, id)];
        assert Cleared(w, page, id) == page;
      } else {
        assert BitOf(w, id) !in Cleared(w, page, id)[WordOf(w, id)];
      }
    }
  }

  lemma FullSet(s: set<nat>, n: nat, k: nat)
    requires |s| == n && k < n && forall x :: x in s ==> x < n
    ensures k in s
  {
    if k !in s {
      CountBelow(s + {k}, n);
    }
  }

  /** With all ids handed out every slot is taken. */
  lemma AllTaken(w: WordSize, live: set<nat>)
    requires |live| == ID_MAX && forall id :: id in live ==> id < ID_MAX
    ensures forall k: nat :: k < ID_MAX ==> SlotTaken(w, live, k)
  {
    forall k: nat | k < ID_MAX ensures SlotTaken(w, live, k) {
      FullSet(live, ID_MAX, k);
      assert SameSlot(w, k, k);
    }
  }

  class IdAllocator {
    const word: WordSize
    const page: array<set<nat>>
    var nrFree: int
    var lastId: int
    /** The ids handed out and not yet returned. */
    ghost var live: set<nat>

    /** Live ids have slots of their own, the page shows them, and the counter counts the others. */
    ghost predicate Valid()
      reads this, page
    {
      && Mirrors(word, page[..], live)
      && OwnSlots(word, live)
      && (forall id :: id in live ==> id < ID_MAX)
      && nrFree + |live| == ID_MAX
      && -1 <= lastId < ID_MAX
    }

    /** With 8-byte words the counter never comes near 0: no more than 4096 ids are ever live, so the
        test for an exhausted counter never fires. */
    lemma CounterStaysHigh()
      requires Valid()
      ensures |live| <= SlotCount(word)
      ensures word == Word64 ==> 28672 <= nrFree
    {
      LiveFits(word, live);
    }

    constructor (word: WordSize)
      ensures Valid() && live == {} && this.word == word && lastId == -1 && fresh(page)
    {
      this.word := word;
      page := new set<nat>[if word == Word32 then 8192 else 4096](_ => {});
      nrFree, lastId, live := ID_MAX, -1, {};
    }

    /** `find_next_zero_bit`: the first offset from the given one on whose slot is clear. */
    method FindNextZeroBit(start: nat) returns (offset: nat)
      requires Valid() && start <= ID_MAX
      ensures start <= offset <= ID_MAX
      ensures forall id: nat :: start <= id < offset ==> SlotTaken(word, live, id)
      ensures offset < ID_MAX ==> !SlotTaken(word, live, offset)
    {
      offset := start;
      while offset < ID_MAX
        invariant start <= offset <= ID_MAX
        invariant forall id: nat :: start <= id < offset ==> SlotTaken(word, live, id)
      {
        if BitOf(word, offset) !in page[..][WordOf(word, offset)] {
          break;
        }
        offset := offset + 1;
      }
    }

    /** `test_and_set_bit` */
    method TestAndSetBit(offset: nat) returns (was: bool)
      requires offset < ID_MAX && 1024 <= page.Length
      modifies page
      ensures was == (BitOf(word, offset) in old(page[..])[WordOf(word, offset)])
      ensures page[..] == old(page[..])[WordOf(word, offset) := old(page[..])[WordOf(word, offset)] + {BitOf(word, offset)}]
    {
      var p := WordOf(word, offset);
      was := BitOf(word, offset) in page[p];
      page[p] := page[p] + {BitOf(word, offset)};
    }

    /** `clear_bit` */
    method ClearBit(offset: nat)
      requires offset < ID_MAX && 1024 <= page.Length
      modifies page
      ensures page[..] == Cleared(word, old(page[..]), offset)
    {
      var p := WordOf(word, offset);
      page[p] := page[p] - {BitOf(word, offset)};
    }

    /** `Allocate`: the least id from the one after the last on whose slot is clear; -1 if there is
        none up to the end of the page, also when there is one before. */
    method Allocate() returns (id: int)
      requires Valid()
      modifies this, page
      ensures Valid()
      ensures Allocates(word, old(live), old(lastId), id, live, lastId)
      ensures nrFree == if id == -1 then old(nrFree) else old(nrFree) - 1
    {
      var offset: nat := (lastId + 1) % ID_MAX;
      if nrFree == 0 {
        AllTaken(word, live);
        return -1;
      }
      offset := FindNextZeroBit(offset);
      if offset != ID_MAX {
        SetMirrors(word, page[..], live, offset);
        NewHasOwnSlot(word, live, offset);
        var was := TestAndSetBit(offset);
        if !was {
          nrFree := nrFree - 1;
          lastId := offset;
          live := live + {offset};
          return offset;
        }
      }
      return -1;
    }

    /** `Free` of any number.  Bits, counter and live ids stay in agreement if and only if the id was
        live: freeing twice, or freeing what was never handed out, leaves the counter one too high. */
    method Free(id: int)
      requires Valid()
      modifies this, page
      ensures
        var offset := id % ID_MAX;
        && live == old(live) - {offset} && nrFree == old(nrFree) + 1 && lastId == old(lastId)
        && page[..] == Cleared(word, old(page[..]), offset)
        && (Valid() <==> offset in old(live))
    {
      var offset: nat := id % ID_MAX;
      nrFree := nrFree + 1;
      FewerKeepSlots(word, live, offset);
      if offset in live {
        ClearMirrors(word, page[..], live, offset);
      } else {
        assert live - {offset} == live;
      }
      ClearBit(offset);
      live := live - {offset};
    }
  }
}
