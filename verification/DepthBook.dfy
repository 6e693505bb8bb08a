/** Order-book sides, the snapshot builder and the in-place diff application.
    Prices and quantities are the fixed-point units of `Price` and `Qty`; the partial
    text-to-number parse is the optional field of a level. */
module DepthBook {
  import opened Common

  datatype Level = Level(price: Option<int>, qty: Option<int>)

  type Side = map<int, int>

  datatype Book = Book(bids: Side, asks: Side)

  const EMPTY_BOOK := Book(map[], map[])

  /** The level parses and is about price `p`. */
  predicate Names(l: Level, p: int) {
    l.price == Some(p) && l.qty.Some?
  }

  /** `Names`, and the quantity is not zero. */
  predicate Fills(l: Level, p: int) {
    Names(l, p) && l.qty != Some(0)
  }

  // ---- Applying a diff --------------------------------------------------------------

  function ApplyLevel(side: Side, l: Level): Side {
    if l.price.None? || l.qty.None? then side
    else if l.qty.value == 0 then side - {l.price.value}
    else side[l.price.value := l.qty.value]
  }

  function ApplyLevels(side: Side, levels: seq<Level>): Side {
    if levels == [] then side
    else ApplyLevel(ApplyLevels(side, levels[..|levels| - 1]), levels[|levels| - 1])
  }

  function ApplyDiff(b: Book, bids: seq<Level>, asks: seq<Level>): Book {
    Book(ApplyLevels(b.bids, bids), ApplyLevels(b.asks, asks))
  }

  // ---- Building from a snapshot -----------------------------------------------------

  /** Skip what does not parse and what is zero, then collect: a repeated price keeps its last value. */
  function BuildSide(levels: seq<Level>): Side {
    if levels == [] then map[]
    else
      var side := BuildSide(levels[..|levels| - 1]);
      var l := levels[|levels| - 1];
      if l.price.None? || l.qty.None? || l.qty.value == 0 then side
      else side[l.price.value := l.qty.value]
  }

  function BuildBook(bids: seq<Level>, asks: seq<Level>): Book {
    Book(BuildSide(bids), BuildSide(asks))
  }

  // ---- What the two mean, price by price --------------------------------------------

  ghost predicate LastNaming(levels: seq<Level>, p: int, i: int) {
    0 <= i < |levels| && Names(levels[i], p) && forall k :: i < k < |levels| ==> !Names(levels[k], p)
  }

  ghost predicate LastFilling(levels: seq<Level>, p: int, i: int) {
    0 <= i < |levels| && Fills(levels[i], p) && forall k :: i < k < |levels| ==> !Fills(levels[k], p)
  }

  /** A price the levels do not name is as before. */
  lemma {:induction false} UnnamedIsKept(side: Side, levels: seq<Level>, p: int)
    requires forall i :: 0 <= i < |levels| ==> !Names(levels[i], p)
    ensures p in ApplyLevels(side, levels) <==> p in side
    ensures p in side ==> ApplyLevels(side, levels)[p] == side[p]
  {
    if levels == [] {
    } else {
      UnnamedIsKept(side, levels[..|levels| - 1], p);
      assert !Names(levels[|levels| - 1], p);
    }
  }

  /** The last level that names a price decides it: gone if zero, else that quantity. */
  lemma {:induction false} LastNamingDecides(side: Side, levels: seq<Level>, p: int, i: int)
    requires LastNaming(levels, p, i)
    ensures p in ApplyLevels(side, levels) <==> levels[i].qty.value != 0
    ensures p in ApplyLevels(side, levels) ==> ApplyLevels(side, levels)[p] == levels[i].qty.value
  {
    var n := |levels| - 1;
    if i < n {
      LastNamingDecides(side, levels[..n], p, i);
      assert !Names(levels[n], p);
    }
  }

  lemma {:induction false} UnfilledIsAbsent(levels: seq<Level>, p: int)
    requires forall i :: 0 <= i < |levels| ==> !Fills(levels[i], p)
    ensures p !in BuildSide(levels)
  {
    if levels == [] {
    } else {
      UnfilledIsAbsent(levels[..|levels| - 1], p);
      assert !Fills(levels[|levels| - 1], p);
    }
  }

  /** The last level that fills a price decides it in a snapshot, whatever zeros follow. */
  lemma {:induction false} LastFillingDecides(levels: seq<Level>, p: int, i: int)
    requires LastFilling(levels, p, i)
    ensures p in BuildSide(levels) && BuildSide(levels)[p] == levels[i].qty.value
  {
    var n := |levels| - 1;
    if i < n {
      LastFillingDecides(levels[..n], p, i);
      assert !Fills(levels[n], p);
    }
  }

  lemma {:induction false} LastNamingExists(levels: seq<Level>, p: int, j: int) returns (i: int)
    requires 0 <= j < |levels| && Names(levels[j], p)
    ensures j <= i && LastNaming(levels, p, i)
    decreases |levels| - j
  {
    if k :| j < k < |levels| && Names(levels[k], p) {
      i := LastNamingExists(levels, p, k);
    } else {
      i := j;
    }
  }

  lemma {:induction false} LastFillingExists(levels: seq<Level>, p: int, j: int) returns (i: int)
    requires 0 <= j < |levels| && Fills(levels[j], p)
    ensures j <= i && LastFilling(levels, p, i)
    decreases |levels| - j
  {
    if k :| j < k < |levels| && Fills(levels[k], p) {
      i := LastFillingExists(levels, p, k);
    } else {
      i := j;
    }
  }

  // ---- Snapshot build against diff application --------------------------------------

  /** Some price is filled first and its last word is a zero. */
  ghost predicate ErasedLater(levels: seq<Level>) {
    exists p, i, j :: 0 <= i < j && LastNaming(levels, p, j) && Fills(levels[i], p) && levels[j].qty == Some(0)
  }

  ghost predicate PricesDistinct(levels: seq<Level>) {
    forall p, i, j :: 0 <= i < j < |levels| ==> !(Names(levels[i], p) && Names(levels[j], p))
  }

  /** The builder skips zeros before collecting, so it is the diff on the empty side exactly
      when no price is filled and then zeroed for good within the one message. */
  lemma BuildIsDiffOnEmptyIff(levels: seq<Level>)
    ensures BuildSide(levels) == ApplyLevels(map[], levels) <==> !ErasedLater(levels)
  {
    if ErasedLater(levels) {
      var p, i, j :| 0 <= i < j && LastNaming(levels, p, j) && Fills(levels[i], p) && levels[j].qty == Some(0);
      var f := LastFillingExists(levels, p, i);
      LastNamingDecides(map[], levels, p, j);
      LastFillingDecides(levels, p, f);
    } else {
      forall p
        ensures p in BuildSide(levels) <==> p in ApplyLevels(map[], levels)
        ensures p in BuildSide(levels) ==> BuildSide(levels)[p] == ApplyLevels(map[], levels)[p]
      {
        BuildAgreesAt(levels, p);
      }
    }
  }

  lemma BuildAgreesAt(levels: seq<Level>, p: int)
    requires !ErasedLater(levels)
    ensures p in BuildSide(levels) <==> p in ApplyLevels(map[], levels)
    ensures p in BuildSide(levels) ==> BuildSide(levels)[p] == ApplyLevels(map[], levels)[p]
  {
    if j :| 0 <= j < |levels| && Names(levels[j], p) {
      var last := LastNamingExists(levels, p, j);
      LastNamingDecides(map[], levels, p, last);
      if Fills(levels[last], p) {
        assert LastFilling(levels, p, last);
        LastFillingDecides(levels, p, last);
      } else {
        UnfilledIsAbsent(levels, p);
      }
    } else {
      UnnamedIsKept(map[], levels, p);
      UnfilledIsAbsent(levels, p);
    }
  }

  lemma BuildRefinesDiff(bids: seq<Level>, asks: seq<Level>)
    requires PricesDistinct(bids) && PricesDistinct(asks)
    ensures BuildBook(bids, asks) == ApplyDiff(EMPTY_BOOK, bids, asks)
  {
    BuildIsDiffOnEmptyIff(bids);
    BuildIsDiffOnEmptyIff(asks);
  }

  /** Two diffs in a row are one diff with the levels concatenated. */
  lemma {:induction false} ApplyComposes(side: Side, first: seq<Level>, second: seq<Level>)
    ensures ApplyLevels(ApplyLevels(side, first), second) == ApplyLevels(side, first + second)
  {
    if second == [] {
      assert first + second == first;
    } else {
      var n := |second| - 1;
      ApplyComposes(side, first, second[..n]);
      assert (first + second)[..|first + second| - 1] == first + second[..n];
    }
  }

  predicate Named(levels: seq<Level>, p: int) {
    exists i :: 0 <= i < |levels| && Names(levels[i], p)
  }

  /** The two sides agree on every price the levels do not name. */
  ghost predicate SameElsewhere(a: Side, b: Side, levels: seq<Level>) {
    forall p :: !Named(levels, p) ==> (p in a <==> p in b) && (p in a ==> a[p] == b[p])
  }

  /** A diff brings two sides together exactly when they differ only on prices it names. */
  lemma SameAfterIff(a: Side, b: Side, levels: seq<Level>)
    ensures ApplyLevels(a, levels) == ApplyLevels(b, levels) <==> SameElsewhere(a, b, levels)
  {
    var x, y := ApplyLevels(a, levels), ApplyLevels(b, levels);
    forall p
      ensures Named(levels, p) ==> (p in x <==> p in y) && (p in x ==> x[p] == y[p])
      ensures !Named(levels, p) ==>
              (p in x <==> p in a) && (p in y <==> p in b) && (p in a ==> x[p] == a[p]) && (p in b ==> y[p] == b[p])
    {
      if i :| 0 <= i < |levels| && Names(levels[i], p) {
        var last := LastNamingExists(levels, p, i);
        LastNamingDecides(a, levels, p, last);
        LastNamingDecides(b, levels, p, last);
      } else {
        UnnamedIsKept(a, levels, p);
        UnnamedIsKept(b, levels, p);
      }
    }
    if SameElsewhere(a, b, levels) {
      assert forall p :: (p in x <==> p in y) && (p in x ==> x[p] == y[p]);
      assert x == y;
    }
  }

  ghost predicate BooksSameElsewhere(a: Book, b: Book, bids: seq<Level>, asks: seq<Level>) {
    SameElsewhere(a.bids, b.bids, bids) && SameElsewhere(a.asks, b.asks, asks)
  }

  lemma DiffMeetsIff(a: Book, b: Book, bids: seq<Level>, asks: seq<Level>)
    ensures ApplyDiff(a, bids, asks) == ApplyDiff(b, bids, asks) <==> BooksSameElsewhere(a, b, bids, asks)
  {
    SameAfterIff(a.bids, b.bids, bids);
    SameAfterIff(a.asks, b.asks, asks);
  }

  predicate NoZero(b: Book) {
    (forall p :: p in b.bids ==> b.bids[p] != 0) && (forall p :: p in b.asks ==> b.asks[p] != 0)
  }

  lemma {:induction false} SideKeepsNoZero(side: Side, levels: seq<Level>)
    requires forall p :: p in side ==> side[p] != 0
    ensures forall p :: p in ApplyLevels(side, levels) ==> ApplyLevels(side, levels)[p] != 0
    ensures forall p :: p in BuildSide(levels) ==> BuildSide(levels)[p] != 0
  {
    if levels == [] {
    } else {
      SideKeepsNoZero(side, levels[..|levels| - 1]);
    }
  }

  /** A diff keeps a book free of zero quantities, and a snapshot starts one. */
  lemma BooksStoreNoZero(b: Book, bids: seq<Level>, asks: seq<Level>)
    requires NoZero(b)
    ensures NoZero(ApplyDiff(b, bids, asks))
    ensures NoZero(BuildBook(bids, asks))
  {
    SideKeepsNoZero(b.bids, bids);
    SideKeepsNoZero(b.asks, asks);
  }

  // ---- The book as the stream holds it ----------------------------------------------

  /** One side updated level by level, unparsable levels skipped. */
  method ApplySide(side: Side, levels: seq<Level>) returns (r: Side)
    ensures r == ApplyLevels(side, levels)
  {
    r := side;
    for i := 0 to |levels|
      invariant r == ApplyLevels(side, levels[..i])
    {
      assert levels[..i + 1][..i] == levels[..i];
      var l := levels[i];
      if l.price.None? {
        continue;
      }
      if l.qty.None? {
        continue;
      }
      if l.qty.value == 0 {
        r := r - {l.price.value};
      } else {
        r := r[l.price.value := l.qty.value];
      }
    }
    assert levels[..|levels|] == levels;
  }

  class Depth {
    var bids: Side
    var asks: Side

    function Contents(): Book
      reads this
    {
      Book(bids, asks)
    }

    constructor (b: Book)
      ensures Contents() == b
    {
      bids, asks := b.bids, b.asks;
    }

    method ApplyDiffLevels(bidLevels: seq<Level>, askLevels: seq<Level>)
      modifies this
      ensures Contents() == ApplyDiff(old(Contents()), bidLevels, askLevels)
    {
      bids := ApplySide(bids, bidLevels);
      asks := ApplySide(asks, askLevels);
    }
  }
}
