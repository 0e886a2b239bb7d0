/**
 * `get_criteria`: the technology labels offered as criteria, sorted and without duplicates,
 * with the area list's "Nature-protected area" moved to the second-to-last place.
 */
module Criteria {
  import opened Wrappers
  import opened Taxonomy
  import opened Tables

  /** Python's `<` on `str`: lexicographic by code point, a proper prefix first. */
  predicate StrLess(a: string, b: string)
  {
    if a == [] then b != []
    else if b == [] then false
    else if a[0] != b[0] then a[0] < b[0]
    else StrLess(a[1..], b[1..])
  }

  lemma {:induction false} StrLessIrreflexive(a: string)
    ensures !StrLess(a, a)
  {
    if a != [] {
      StrLessIrreflexive(a[1..]);
    }
  }

  lemma {:induction false} StrLessTransitive(a: string, b: string, c: string)
    requires StrLess(a, b) && StrLess(b, c)
    ensures StrLess(a, c)
  {
    if a != [] && b != [] && c != [] && a[0] == b[0] && b[0] == c[0] {
      StrLessTransitive(a[1..], b[1..], c[1..]);
    }
  }

  lemma {:induction false} StrLessTotal(a: string, b: string)
    requires a != b
    ensures StrLess(a, b) != StrLess(b, a)
  {
    if a != [] && b != [] && a[0] == b[0] {
      assert a == [a[0]] + a[1..] && b == [b[0]] + b[1..];
      StrLessTotal(a[1..], b[1..]);
    }
  }

  /** Each label is strictly below every later one: sorted and free of duplicates. */
  predicate StrictlySorted(s: seq<string>)
  {
    forall i, j :: 0 <= i < j < |s| ==> StrLess(s[i], s[j])
  }

  /** Adds `x` to a strictly sorted list at its place, unless it is there already. */
  function InsertSorted(x: string, s: seq<string>): (r: seq<string>)
    requires StrictlySorted(s)
    ensures StrictlySorted(r)
    ensures forall y :: y in r <==> y in s || y == x
  {
    if s == [] then [x]
    else if x == s[0] then s
    else if StrLess(x, s[0]) then
      assert forall j :: 0 <= j < |s| ==> StrLess(x, s[j]) by {
        forall j | 0 < j < |s| ensures StrLess(x, s[j]) {
          StrLessTransitive(x, s[0], s[j]);
        }
      }
      [x] + s
    else
      var rest := InsertSorted(x, s[1..]);
      assert StrLess(s[0], x) by { StrLessTotal(x, s[0]); }
      assert forall y :: y in rest ==> StrLess(s[0], y) by {
        forall y | y in rest ensures StrLess(s[0], y) {
          if y != x {
            var j :| 1 <= j < |s| && s[j] == y;
          }
        }
      }
      [s[0]] + rest
  }

  /** `sort_values().unique()` on a column of labels. */
  function SortedDistinct(labels: seq<string>): (r: seq<string>)
    ensures StrictlySorted(r)
    ensures forall y :: y in r <==> y in labels
  {
    if labels == [] then [] else InsertSorted(labels[0], SortedDistinct(labels[1..]))
  }

  /** The first label of a strictly sorted list is below all the others. */
  lemma HeadIsLeast(a: seq<string>, y: string)
    requires StrictlySorted(a) && y in a
    ensures y == a[0] || StrLess(a[0], y)
  {
  }

  /** A label that is in a strictly sorted list but is not its head is in its tail. */
  lemma InTail(a: seq<string>, y: string)
    requires y in a && y != a[0]
    ensures y in a[1..]
  {
  }

  /** Two strictly sorted lists with the same labels are the same list. */
  lemma {:induction false} SortedUnique(a: seq<string>, b: seq<string>)
    requires StrictlySorted(a) && StrictlySorted(b)
    requires forall y :: y in a <==> y in b
    ensures a == b
  {
    assert a != [] ==> a[0] in a;
    assert b != [] ==> b[0] in b;
    if a != [] && b != [] {
      HeadIsLeast(a, b[0]);
      HeadIsLeast(b, a[0]);
      if a[0] != b[0] {
        StrLessTotal(a[0], b[0]);
        assert false;
      }
      forall y ensures y in a[1..] <==> y in b[1..] {
        StrLessIrreflexive(y);
        if y in a[1..] {
          assert y in a && y != a[0];
          InTail(b, y);
        }
        if y in b[1..] {
          assert y in b && y != b[0];
          InTail(a, y);
        }
      }
      SortedUnique(a[1..], b[1..]);
    }
  }

  /** The technology labels of the dataset after relabelling with the requirement's table. */
  function Labels(requirement: string, dataset: Table): seq<string>
  {
    seq(|dataset|, i requires 0 <= i < |dataset| => Relabel(DictFor(requirement), dataset[i].tech))
  }

  /** Position of the first occurrence of `x` in `s`, as `list.remove` finds it. */
  function IndexOf(s: seq<string>, x: string): (i: nat)
    requires x in s
    ensures i < |s| && s[i] == x && x !in s[..i]
  {
    if s[0] == x then 0 else 1 + IndexOf(s[1..], x)
  }

  /**
   * Python's `list.insert(i, x)`: a negative index counts from the end and is clamped at 0,
   * an index past the end appends.
   */
  function PyInsert(s: seq<string>, i: int, x: string): seq<string>
  {
    var j := if i < 0 then (if i + |s| < 0 then 0 else i + |s|) else if i > |s| then |s| else i;
    s[..j] + [x] + s[j..]
  }

  /** The place "Nature-protected area" ends up in an area criteria list of `n` labels. */
  function NaturePlace(n: nat): nat
  {
    if n >= 2 then n - 2 else 0
  }

  /** Removing one label from a strictly sorted list leaves a strictly sorted list without it. */
  lemma RemoveAt(c: seq<string>, i: nat)
    requires StrictlySorted(c) && i < |c|
    ensures StrictlySorted(c[..i] + c[i + 1..])
    ensures forall y :: y in c[..i] + c[i + 1..] <==> y in c && y != c[i]
  {
    var rest := c[..i] + c[i + 1..];
    forall a, b | 0 <= a < b < |rest| ensures StrLess(rest[a], rest[b]) {
      var a' := if a < i then a else a + 1;
      var b' := if b < i then b else b + 1;
      assert rest[a] == c[a'] && rest[b] == c[b'];
    }
    forall y | y in c && y != c[i] ensures y in rest {
      var j :| 0 <= j < |c| && c[j] == y;
      if j < i { assert rest[j] == y; } else { assert rest[j - 1] == y; }
    }
    forall j | 0 <= j < |c| && j != i ensures c[j] != c[i] {
      StrLessIrreflexive(c[i]);
    }
  }

  /** `insert(len(s) - 1, x)` puts `x` at `NaturePlace` of the longer list and moves nothing else. */
  lemma InsertBeforeLast(s: seq<string>, x: string)
    ensures var c := PyInsert(s, |s| - 1, x);
      var p := NaturePlace(|c|);
      && |c| == |s| + 1 && p < |c| && c[p] == x && c[..p] + c[p + 1..] == s
  {
  }

  datatype CriteriaError = ValueError

  /**
   * For "water", the sorted distinct relabelled labels. For any other requirement, the same
   * list with "Nature-protected area" removed and re-inserted before the last label; when that
   * label is absent `list.remove` raises.
   */
  method GetCriteria(requirement: string, dataset: Table) returns (r: Result<seq<string>, CriteriaError>)
    ensures requirement == "water" ==>
      && r.Ok?
      && StrictlySorted(r.value)
      && (forall y :: y in r.value <==> y in Labels(requirement, dataset))
    ensures requirement != "water" ==>
      (r.Ok? <==> NatureProtected in Labels(requirement, dataset))
    ensures requirement != "water" && r.Ok? ==>
      var c := r.value;
      var p := NaturePlace(|c|);
      && (forall y :: y in c <==> y in Labels(requirement, dataset))
      && p < |c| && c[p] == NatureProtected
      && NatureProtected !in c[..p] + c[p + 1..]
      && StrictlySorted(c[..p] + c[p + 1..])
  {
    var relabelled := Normalize(DictFor(requirement), dataset);
    var labels := seq(|relabelled|, i requires 0 <= i < |relabelled| => relabelled[i].tech);
    assert labels == Labels(requirement, dataset);
    var criteria := SortedDistinct(labels);
    if requirement == "water" {
      return Ok(criteria);
    }
    if NatureProtected !in criteria {
      return Err(ValueError);
    }
    var i := IndexOf(criteria, NatureProtected);
    RemoveAt(criteria, i);
    criteria := criteria[..i] + criteria[i + 1..];
    InsertBeforeLast(criteria, NatureProtected);
    criteria := PyInsert(criteria, |criteria| - 1, NatureProtected);
    r := Ok(criteria);
  }
}
