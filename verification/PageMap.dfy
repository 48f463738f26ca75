/** The logical pages that a range of sectors touches, as the FTL's loops walk them, and what FTL_WRITE has done
    when GET_NEW_PAGE stops giving pages. */
module PageMap {

  /** Sectors of the next page that the loops take: up to the end of the page or of the range. */
  function Step(lba: nat, remain: nat, size: nat): (n: nat)
    requires size > 0
    ensures n <= remain && (remain > 0 ==> n > 0)
  {
    if remain > size - lba % size then size - lba % size else remain
  }

  /** The pages the loops visit, in order. */
  function Pages(lba: nat, remain: nat, size: nat): seq<nat>
    requires size > 0
    decreases remain
  {
    if remain == 0 then []
    else
      var n := Step(lba, remain, size);
      [lba / size] + Pages(lba + n, remain - n, size)
  }

  /** The page holds a sector of [lba, lba+n). */
  predicate Touches(page: nat, lba: nat, n: nat, size: nat)
    requires size > 0
  {
    exists s :: lba <= s < lba + n && s / size == page
  }

  lemma {:induction false} SamePage(lba: nat, s: nat, size: nat)
    requires size > 0 && lba <= s < lba + (size - lba % size)
    ensures s / size == lba / size
  {
    var p, r := lba / size, lba % size;
    assert lba == size * p + r;
    assert s == size * p + (r + (s - lba));
    QuotientIs(s, p, r + (s - lba), size);
  }

  lemma {:induction false} NextPage(lba: nat, size: nat)
    requires size > 0
    ensures (lba + (size - lba % size)) % size == 0
    ensures (lba + (size - lba % size)) / size == lba / size + 1
  {
    var p, r := lba / size, lba % size;
    assert lba + (size - r) == size * (p + 1) + 0;
    QuotientIs(lba + (size - r), p + 1, 0, size);
  }

  lemma {:induction false} QuotientIs(s: nat, p: nat, r: nat, size: nat)
    requires size > 0 && r < size && s == size * p + r
    ensures s / size == p && s % size == r
  {
    var d := s / size - p;
    assert size * d == r - s % size;
    assert d >= 1 ==> size * d >= size;
    assert d <= -1 ==> size * d <= -1 * size;
  }

  /** The loops visit exactly the pages that the range touches, each once and in order. */
  lemma {:induction false} PagesAreTouched(lba: nat, remain: nat, size: nat, page: nat)
    requires size > 0
    ensures page in Pages(lba, remain, size) <==> Touches(page, lba, remain, size)
    decreases remain
  {
    if remain > 0 {
      var n := Step(lba, remain, size);
      PagesAreTouched(lba + n, remain - n, size, page);
      var rest := Pages(lba + n, remain - n, size);
      assert page in Pages(lba, remain, size) <==> page == lba / size || page in rest;
      if Touches(page, lba, remain, size) {
        var s :| lba <= s < lba + remain && s / size == page;
        if s < lba + n {
          SamePage(lba, s, size);
        }
      }
      if Touches(page, lba + n, remain - n, size) {
        var s :| lba + n <= s < lba + n + (remain - n) && s / size == page;
        assert lba <= s < lba + remain;
      }
    }
  }

  lemma {:induction false} PagesInOrder(lba: nat, remain: nat, size: nat, i: nat)
    requires size > 0 && i < |Pages(lba, remain, size)|
    ensures Pages(lba, remain, size)[i] == lba / size + i
    decreases remain
  {
    var n := Step(lba, remain, size);
    if i > 0 {
      assert n == size - lba % size;
      NextPage(lba, size);
      PagesInOrder(lba + n, remain - n, size, i - 1);
    }
  }

  // ---------------------------------------------------------------------------------------------
  // One round of the loops

  /** The sectors of one round, from the part of the page to skip on the left and what remains. */
  function Sects(leftSkip: nat, remain: nat, size: nat): int {
    var rightSkip := if remain > size - leftSkip then 0 else size - leftSkip - remain;
    size - leftSkip - rightSkip
  }

  lemma {:induction false} Round(leftSkip: nat, lba: nat, remain: nat, size: nat)
    requires size > 0 && remain > 0 && leftSkip == lba % size
    ensures var n := Sects(leftSkip, remain, size);
            && 0 < n <= remain && Pages(lba, remain, size) == [lba / size] + Pages(lba + n, remain - n, size)
            && (remain > n ==> (lba + n) % size == 0)
  {
    if remain > size - leftSkip {
      NextPage(lba, size);
    }
  }

  predicate AllIn(pages: seq<nat>, mapped: set<nat>) {
    forall p | p in pages :: p in mapped
  }

  lemma {:induction false} AllInCons(p: nat, pages: seq<nat>, mapped: set<nat>)
    ensures AllIn([p] + pages, mapped) <==> p in mapped && AllIn(pages, mapped)
  {
    assert p in [p] + pages;
    assert forall x | x in pages :: x in [p] + pages;
  }

  lemma {:induction false} NoPages(lba: nat, size: nat, mapped: set<nat>)
    requires size > 0
    ensures AllIn(Pages(lba, 0, size), mapped)
  {
  }

  // ---------------------------------------------------------------------------------------------
  // Writing while there are pages

  /** Sectors stored, pages mapped and pages asked for. */
  datatype Outcome = Outcome(done: nat, mapped: set<nat>, allocs: nat)

  /** FTL_WRITE from `lba` on, where the k-th call of GET_NEW_PAGE succeeds if newPage(k): the first failing
      call ends it. */
  function Written(newPage: nat -> bool, allocs: nat, mapped: set<nat>, lba: nat, remain: nat, size: nat): (o: Outcome)
    requires size > 0
    ensures o.done <= remain
    decreases remain
  {
    if remain == 0 then Outcome(0, mapped, allocs)
    else if !newPage(allocs) then Outcome(0, mapped, allocs + 1)
    else
      var n := Step(lba, remain, size);
      var o := Written(newPage, allocs + 1, mapped + {lba / size}, lba + n, remain - n, size);
      o.(done := n + o.done)
  }

  lemma {:induction false} WrittenNone(newPage: nat -> bool, allocs: nat, mapped: set<nat>, lba: nat, size: nat)
    requires size > 0
    ensures Written(newPage, allocs, mapped, lba, 0, size) == Outcome(0, mapped, allocs)
  {
  }

  lemma {:induction false} WrittenRound(newPage: nat -> bool, allocs: nat, mapped: set<nat>, leftSkip: nat, lba: nat, remain: nat, size: nat)
    requires size > 0 && remain > 0 && leftSkip == lba % size
    ensures var n := Sects(leftSkip, remain, size);
            && 0 < n <= remain
            && Written(newPage, allocs, mapped, lba, remain, size) ==
               if newPage(allocs) then
                 var o := Written(newPage, allocs + 1, mapped + {lba / size}, lba + n, remain - n, size);
                 o.(done := n + o.done)
               else Outcome(0, mapped, allocs + 1)
  {
  }

  /** Every sector is stored if and only if a page is given for every page the range touches. */
  lemma {:induction false} WrittenAllIff(newPage: nat -> bool, allocs: nat, mapped: set<nat>, lba: nat, remain: nat, size: nat)
    requires size > 0
    ensures Written(newPage, allocs, mapped, lba, remain, size).done == remain
            <==> forall k | allocs <= k < allocs + |Pages(lba, remain, size)| :: newPage(k)
    decreases remain
  {
    if remain > 0 && newPage(allocs) {
      var n := Step(lba, remain, size);
      WrittenAllIff(newPage, allocs + 1, mapped + {lba / size}, lba + n, remain - n, size);
    }
  }

  lemma {:induction false} WrittenAll(newPage: nat -> bool, allocs: nat, mapped: set<nat>, lba: nat, remain: nat, size: nat)
    requires size > 0 && forall k :: newPage(k)
    ensures Written(newPage, allocs, mapped, lba, remain, size).done == remain
  {
    hide Written;
    WrittenAllIff(newPage, allocs, mapped, lba, remain, size);
  }

  function PageSet(pages: seq<nat>): (r: set<nat>)
    ensures forall p :: p in r <==> p in pages
  {
    set p | p in pages
  }

  lemma {:induction false} PageSetCons(p: nat, pages: seq<nat>, mapped: set<nat>)
    ensures mapped + PageSet([p] + pages) == mapped + {p} + PageSet(pages)
  {
    hide PageSet;
  }

  /** The pages mapped are those of the sectors stored. */
  lemma {:induction false} WrittenMapped(newPage: nat -> bool, allocs: nat, mapped: set<nat>, lba: nat, remain: nat, size: nat)
    requires size > 0
    ensures var o := Written(newPage, allocs, mapped, lba, remain, size);
            o.mapped == mapped + PageSet(Pages(lba, o.done, size))
    decreases remain
  {
    hide PageSet;
    if remain == 0 || !newPage(allocs) {
      assert mapped + PageSet([]) == mapped;
    } else {
      var n := Step(lba, remain, size);
      var o := Written(newPage, allocs + 1, mapped + {lba / size}, lba + n, remain - n, size);
      WrittenMapped(newPage, allocs + 1, mapped + {lba / size}, lba + n, remain - n, size);
      assert Step(lba, n + o.done, size) == n;
      PageSetCons(lba / size, Pages(lba + n, o.done, size), mapped);
    }
  }

  /** A read of sectors that were written finds a mapping for every page, whatever was mapped before. */
  lemma {:induction false} WrittenIsMapped(newPage: nat -> bool, allocs: nat, mapped: set<nat>, lba: nat, remain: nat, size: nat, s: nat)
    requires size > 0
    requires lba <= s < lba + Written(newPage, allocs, mapped, lba, remain, size).done
    ensures s / size in Written(newPage, allocs, mapped, lba, remain, size).mapped
  {
    hide Written, Pages, PageSet;
    var o := Written(newPage, allocs, mapped, lba, remain, size);
    WrittenMapped(newPage, allocs, mapped, lba, remain, size);
    assert Touches(s / size, lba, o.done, size);
    PagesAreTouched(lba, o.done, size, s / size);
    assert s / size in PageSet(Pages(lba, o.done, size));
  }
}
