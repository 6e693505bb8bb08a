/** The proto field-number checker and its brace matcher. */
module SchemaParity {
  import opened Common

  /** One entry of the field map, in insertion order. */
  datatype Field = Field(name: string, num: nat)

  datatype Finding =
    | Duplicate(num: nat, names: seq<string>)
    | Gap(missing: set<nat>)

  function Names(fields: seq<Field>, num: nat): seq<string> {
    if fields == [] then []
    else
      var before, last := Names(fields[..|fields| - 1], num), fields[|fields| - 1];
      if last.num == num then before + [last.name] else before
  }

  predicate Uses(fields: seq<Field>, num: nat) {
    exists i :: 0 <= i < |fields| && fields[i].num == num
  }

  function Max(fields: seq<Field>): (m: nat)
    requires fields != []
    ensures Uses(fields, m) && forall i :: 0 <= i < |fields| ==> fields[i].num <= m
  {
    var n := |fields| - 1;
    if n == 0 then
      assert fields[0].num == fields[n].num;
      fields[0].num
    else
      var m := Max(fields[..n]);
      assert exists i :: 0 <= i < n && fields[..n][i].num == m;
      assert forall i :: 0 <= i < n ==> fields[..n][i] == fields[i];
      assert Uses(fields, fields[n].num) && Uses(fields, m);
      if fields[n].num > m then fields[n].num else m
  }

  lemma {:induction false} NamesMeaning(fields: seq<Field>, num: nat)
    ensures Names(fields, num) != [] <==> Uses(fields, num)
    ensures |Names(fields, num)| > 1 <==> exists i, j :: 0 <= i < j < |fields| && fields[i].num == fields[j].num == num
  {
    if fields == [] {
    } else {
      var n := |fields| - 1;
      NamesMeaning(fields[..n], num);
      if i :| 0 <= i < n && fields[..n][i].num == num && fields[n].num == num {
        assert fields[i].num == fields[n].num == num;
      }
      if i, j :| 0 <= i < j < n && fields[..n][i].num == fields[..n][j].num == num {
        assert fields[i].num == fields[j].num == num;
      }
      if i :| 0 <= i < |fields| && fields[i].num == num {
        assert i < n ==> fields[..n][i].num == num;
      }
      if i, j :| 0 <= i < j < |fields| && fields[i].num == fields[j].num == num {
        assert fields[..n][i].num == num;
        assert j < n ==> fields[..n][i].num == fields[..n][j].num == num;
      }
      if i :| 0 <= i < n && fields[..n][i].num == num {
        assert fields[i].num == num;
      }
    }
  }

  /** A number's names are those of exactly the entries that have it, in their order. */
  lemma {:induction false} NamesParts(a: seq<Field>, b: seq<Field>, f: Field, num: nat)
    ensures Names(a + b, num) == Names(a, num) + Names(b, num)
    ensures Names([f], num) == if f.num == num then [f.name] else []
  {
    assert [f][..0] == [];
    if b == [] {
      assert a + b == a;
    } else {
      NamesParts(a, b[..|b| - 1], f, num);
      assert (a + b)[..|a + b| - 1] == a + b[..|b| - 1];
    }
  }

  function Missing(fields: seq<Field>): set<nat>
    requires fields != []
  {
    set k: nat | 1 <= k <= Max(fields) && !Uses(fields, k)
  }

  method GroupByNumber(fields: seq<Field>) returns (byNumber: map<nat, seq<string>>)
    ensures forall num :: num in byNumber <==> Names(fields, num) != []
    ensures forall num :: num in byNumber ==> byNumber[num] == Names(fields, num)
  {
    byNumber := map[];
    for i := 0 to |fields|
      invariant forall num :: num in byNumber <==> Names(fields[..i], num) != []
      invariant forall num :: num in byNumber ==> byNumber[num] == Names(fields[..i], num)
    {
      assert fields[..i + 1][..i] == fields[..i];
      var f := fields[i];
      var names := if f.num in byNumber then byNumber[f.num] else [];
      byNumber := byNumber[f.num := names + [f.name]];
    }
    assert fields[..|fields|] == fields;
  }

  /** The duplicate findings, in ascending order of number. */
  function Duplicates(fields: seq<Field>, below: nat): seq<Finding> {
    if below == 0 then []
    else
      var before, names := Duplicates(fields, below - 1), Names(fields, below - 1);
      if |names| > 1 then before + [Duplicate(below - 1, names)] else before
  }

  /** Numbers grouped by a loop over the fields, duplicates reported in ascending order, then the gaps. */
  method CheckFieldLevel(fields: seq<Field>) returns (errors: seq<Finding>)
    ensures fields == [] ==> errors == []
    ensures fields != [] ==>
              var gaps := if Missing(fields) == {} then [] else [Gap(Missing(fields))];
              errors == Duplicates(fields, Max(fields) + 1) + gaps
  {
    errors := [];
    if fields == [] {
      return;
    }
    var byNumber := GroupByNumber(fields);
    var top := Max(fields);
    for num := 0 to top + 1
      invariant errors == Duplicates(fields, num)
    {
      if num in byNumber && |byNumber[num]| > 1 {
        errors := errors + [Duplicate(num, byNumber[num])];
      }
    }
    var gaps := Missing(fields);
    if gaps != {} {
      errors := errors + [Gap(gaps)];
    }
  }

  // ---- What is reported -------------------------------------------------------------

  /** The gap error names exactly the unused positive numbers below some used one, and is left out if there is none. */
  lemma GapsAreReported(fields: seq<Field>, k: nat)
    requires fields != []
    ensures k in Missing(fields) <==> k >= 1 && !Uses(fields, k) && exists i :: 0 <= i < |fields| && fields[i].num > k
  {
    if i :| 0 <= i < |fields| && fields[i].num > k {
      assert fields[i].num <= Max(fields);
    }
    if k in Missing(fields) {
      assert Uses(fields, Max(fields));
    }
  }

  predicate Ascend(found: seq<Finding>) {
    && (forall i :: 0 <= i < |found| ==> found[i].Duplicate?)
    && (forall i, j :: 0 <= i < j < |found| ==> found[i].num < found[j].num)
  }

  predicate IsDuplicate(fields: seq<Field>, below: nat, e: Finding) {
    e.Duplicate? && e.num < below && |e.names| > 1 && e.names == Names(fields, e.num)
  }

  /** Every number of several names is reported with all its names, and no other. */
  lemma {:induction false} ReportedIff(fields: seq<Field>, below: nat, e: Finding)
    ensures e in Duplicates(fields, below) <==> IsDuplicate(fields, below, e)
  {
    if below != 0 {
      ReportedIff(fields, below - 1, e);
    }
  }

  /** Each is reported once, in ascending order. */
  lemma {:induction false} DuplicatesAscend(fields: seq<Field>, below: nat)
    ensures Ascend(Duplicates(fields, below))
  {
    if below != 0 {
      var before := Duplicates(fields, below - 1);
      DuplicatesAscend(fields, below - 1);
      forall i | 0 <= i < |before|
        ensures before[i].Duplicate? && before[i].num < below - 1
      {
        ReportedIff(fields, below - 1, before[i]);
      }
    }
  }

  // ---- What silence means -----------------------------------------------------------

  /** Each of 1..k once, and nothing else. */
  ghost predicate ExactlyOneTo(fields: seq<Field>, k: nat) {
    && |fields| == k
    && (forall i :: 0 <= i < |fields| ==> 1 <= fields[i].num <= k)
    && (forall i, j :: 0 <= i < j < |fields| ==> fields[i].num != fields[j].num)
  }

  predicate NoFinding(fields: seq<Field>)
    requires fields != []
  {
    Missing(fields) == {} && forall i, j :: 0 <= i < j < |fields| ==> fields[i].num != fields[j].num
  }

  lemma SilenceIsDistinctness(fields: seq<Field>)
    ensures (forall num: nat :: |Names(fields, num)| <= 1) <==>
            forall i, j :: 0 <= i < j < |fields| ==> fields[i].num != fields[j].num
  {
    forall num: nat
      ensures |Names(fields, num)| > 1 <==>
              exists i, j :: 0 <= i < j < |fields| && fields[i].num == fields[j].num == num
    {
      NamesMeaning(fields, num);
    }
    if i, j :| 0 <= i < j < |fields| && fields[i].num == fields[j].num {
      assert |Names(fields, fields[i].num)| > 1;
    }
  }

  lemma {:induction false} DuplicatesReported(fields: seq<Field>, below: nat)
    ensures forall num: nat :: num < below ==>
            (|Names(fields, num)| > 1 <==> Duplicate(num, Names(fields, num)) in Duplicates(fields, below))
    ensures forall e :: e in Duplicates(fields, below) ==>
            e.Duplicate? && e.num < below && |e.names| > 1 && e.names == Names(fields, e.num)
  {
    if below == 0 {
    } else {
      DuplicatesReported(fields, below - 1);
    }
  }

  /** The checker is silent exactly when there is no repeated number and no gap. */
  lemma SilentIff(fields: seq<Field>)
    requires fields != []
    ensures Duplicates(fields, Max(fields) + 1) == [] && Missing(fields) == {} <==> NoFinding(fields)
  {
    var found := Duplicates(fields, Max(fields) + 1);
    DuplicatesReported(fields, Max(fields) + 1);
    SilenceIsDistinctness(fields);
    if found == [] {
      forall num: nat
        ensures |Names(fields, num)| <= 1
      {
        NamesMeaning(fields, num);
      }
    } else {
      assert found[0] in found;
      NamesMeaning(fields, found[0].num);
      assert |Names(fields, found[0].num)| > 1;
    }
  }

  function Numbers(fields: seq<Field>): set<nat> {
    set i | 0 <= i < |fields| :: fields[i].num
  }

  function UpTo(k: nat): (s: set<nat>)
    ensures forall x :: x in s <==> 1 <= x <= k
    ensures |s| == k
  {
    if k == 0 then {} else UpTo(k - 1) + {k}
  }

  lemma {:induction false} DistinctNumbersCount(fields: seq<Field>)
    requires forall i, j :: 0 <= i < j < |fields| ==> fields[i].num != fields[j].num
    ensures |Numbers(fields)| == |fields|
  {
    if fields == [] {
    } else {
      var n := |fields| - 1;
      DistinctNumbersCount(fields[..n]);
      assert Numbers(fields) == Numbers(fields[..n]) + {fields[n].num} by {
        assert forall i :: 0 <= i < n ==> fields[..n][i] == fields[i];
      }
    }
  }

  lemma {:induction false} SubsetOfSameSize(a: set<nat>, b: set<nat>)
    requires a <= b && |a| == |b|
    ensures a == b
  {
    if x :| x in b && x !in a {
      SubsetIsSmaller(a, b - {x});
      assert false;
    }
  }

  lemma {:induction false} SubsetIsSmaller(a: set<nat>, b: set<nat>)
    requires a <= b
    ensures |a| <= |b|
  {
    if a != {} {
      var x :| x in a;
      SubsetIsSmaller(a - {x}, b - {x});
    }
  }

  /** Pigeonhole: with positive numbers, no duplicate and no gap is exactly 1..k each once. */
  lemma NoFindingIff(fields: seq<Field>)
    requires fields != [] && forall i :: 0 <= i < |fields| ==> fields[i].num >= 1
    ensures NoFinding(fields) <==> ExactlyOneTo(fields, |fields|)
  {
    var k, top := |fields|, Max(fields);
    var nums := Numbers(fields);
    if NoFinding(fields) {
      DistinctNumbersCount(fields);
      forall x: nat
        ensures x in nums <==> 1 <= x <= top
      {
        if 1 <= x <= top {
          assert x !in Missing(fields);
          assert Uses(fields, x);
        }
      }
      assert nums == UpTo(top);
    }
    if ExactlyOneTo(fields, k) {
      DistinctNumbersCount(fields);
      assert nums <= UpTo(k);
      SubsetOfSameSize(nums, UpTo(k));
      forall x: nat | 1 <= x <= top
        ensures Uses(fields, x)
      {
        assert x in nums;
      }
      assert Missing(fields) == {};
    }
  }

  /** Number zero is the one hole in the check: it is never reported, so `0, 1` passes. */
  lemma ZeroIsNotNoticed(a: string, b: string)
    ensures NoFinding([Field(a, 0), Field(b, 1)]) && !exists k :: ExactlyOneTo([Field(a, 0), Field(b, 1)], k)
  {
    var fields := [Field(a, 0), Field(b, 1)];
    assert fields[1].num == 1;
    assert Max(fields) == 1;
    assert fields[0].num == 0;
  }

  /** ... and the only one: a silent check means 1..k each once exactly when no field has number zero. */
  lemma ZeroIsTheOnlyHole(fields: seq<Field>)
    requires fields != [] && NoFinding(fields)
    ensures (exists k :: ExactlyOneTo(fields, k)) <==> forall i :: 0 <= i < |fields| ==> fields[i].num != 0
  {
    if forall i :: 0 <= i < |fields| ==> fields[i].num != 0 {
      NoFindingIff(fields);
    }
  }

  // ---- Brace matching ---------------------------------------------------------------

  /** Brace depth after `text[from..to]`, counting the opening brace before `from`. */
  function Depth(text: string, from: nat, to: nat): int
    requires from <= to <= |text|
  {
    if from == to then 1
    else Depth(text, from, to - 1) + if text[to - 1] == '{' then 1 else if text[to - 1] == '}' then -1 else 0
  }

  /** The depth is one, plus the opening and less the closing braces passed. */
  lemma {:induction false} DepthCounts(text: string, from: nat, to: nat)
    requires from <= to <= |text|
    ensures var passed := multiset(text[from..to]);
            Depth(text, from, to) + passed['}'] == 1 + passed['{']
  {
    if from == to {
    } else {
      DepthCounts(text, from, to - 1);
      assert text[from..to] == text[from..to - 1] + [text[to - 1]];
    }
  }

  /** `end` is the first point where the depth is zero, or the end of the text if there is none. */
  ghost predicate BlockEnd(text: string, from: nat, end: nat) {
    from <= end <= |text|
    && (forall k :: from <= k < end ==> Depth(text, from, k) > 0)
    && (Depth(text, from, end) == 0 || end == |text|)
  }

  /** `found` is where the message header matches: its start and the point behind its opening brace. */
  method ExtractMessageBlock(text: string, found: Option<(nat, nat)>) returns (block: Option<string>)
    requires found.Some? ==> found.value.0 <= found.value.1 <= |text|
    ensures block.None? <==> found.None?
    ensures found.Some? ==>
              exists end: nat :: BlockEnd(text, found.value.1, end) && block == Some(text[found.value.0..end])
  {
    if found.None? {
      return None;
    }
    var (start, from) := found.value;
    var depth := 1;
    var i := from;
    while i < |text| && depth > 0
      invariant from <= i <= |text|
      invariant depth == Depth(text, from, i) >= 0
      invariant forall k :: from <= k < i ==> Depth(text, from, k) > 0
    {
      if text[i] == '{' {
        depth := depth + 1;
      } else if text[i] == '}' {
        depth := depth - 1;
      }
      i := i + 1;
    }
    assert BlockEnd(text, from, i);
    block := Some(text[start..i]);
  }

  /** A body whose braces match: the depth never closes the outer brace inside it. */
  ghost predicate Balanced(body: string) {
    Depth(body, 0, |body|) == 1 && forall k :: 0 <= k < |body| ==> Depth(body, 0, k) > 0
  }

  lemma {:induction false} DepthIsLocal(before: string, body: string, after: string, k: nat)
    requires k <= |body|
    ensures Depth(before + body + after, |before|, |before| + k) == Depth(body, 0, k)
  {
    if k == 0 {
    } else {
      DepthIsLocal(before, body, after, k - 1);
      assert (before + body + after)[|before| + k - 1] == body[k - 1];
    }
  }

  /** A message with a balanced body, nested braces and all, is cut out up to its own closing brace and
      nowhere else, whatever follows it. */
  lemma BalancedBodyIsCutOut(header: string, body: string, rest: string, end: nat)
    requires Balanced(body)
    ensures BlockEnd(header + body + "}" + rest, |header|, end) <==> end == |header| + |body| + 1
  {
    var text := header + body + "}" + rest;
    var close := |header| + |body| + 1;
    assert text == header + (body + "}") + rest;
    forall k | |header| <= k <= close
      ensures Depth(text, |header|, k) == Depth(body + "}", 0, k - |header|)
    {
      DepthIsLocal(header, body + "}", rest, k - |header|);
    }
    forall k | 0 <= k <= |body|
      ensures Depth(body + "}", 0, k) == Depth(body, 0, k)
    {
      DepthIsLocal("", body, "}", k);
      assert "" + body + "}" == body + "}";
    }
    forall k | |header| <= k < close
      ensures Depth(text, |header|, k) > 0
    {
      assert Depth(body, 0, k - |header|) > 0;
    }
    assert Depth(text, |header|, close) == 0;
  }
}
