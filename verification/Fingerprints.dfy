/** Store fingerprints: tuples of `(name, size, stamp)` entries sorted by file name. */
module Fingerprints {
  import opened Common

  datatype Entry = Entry(name: string, size: nat, stamp: string)

  ghost predicate SortedByName(fp: seq<Entry>) {
    forall i, j :: 0 <= i < j < |fp| ==> Before(fp[i].name, fp[j].name)
  }

  /** The step of a stable sort by name: `e` goes after every entry not above it. */
  function Insert(e: Entry, fp: seq<Entry>): (r: seq<Entry>)
    ensures multiset(r) == multiset(fp) + multiset{e}
  {
    if fp == [] then [e]
    else
      assert fp == [fp[0]] + fp[1..];
      if Before(e.name, fp[0].name) then [e] + fp
      else [fp[0]] + Insert(e, fp[1..])
  }

  function Sort(es: seq<Entry>): (r: seq<Entry>)
    ensures multiset(r) == multiset(es)
  {
    if es == [] then []
    else
      assert es == es[..|es| - 1] + [es[|es| - 1]];
      Insert(es[|es| - 1], Sort(es[..|es| - 1]))
  }

  ghost predicate Distinct(es: seq<Entry>) {
    forall i, j :: 0 <= i < j < |es| ==> es[i].name != es[j].name
  }

  lemma SortedFromFront(e: Entry, fp: seq<Entry>)
    requires SortedByName(fp) && forall x <- fp :: Before(e.name, x.name)
    ensures SortedByName([e] + fp)
  {
  }

  lemma {:induction false} InsertKeepsSorted(e: Entry, fp: seq<Entry>)
    requires SortedByName(fp)
    requires forall x <- fp :: x.name != e.name
    ensures SortedByName(Insert(e, fp))
  {
    if fp != [] {
      BeforeIsTotal(e.name, fp[0].name);
      if Before(e.name, fp[0].name) {
        forall x | x in fp ensures Before(e.name, x.name) {
          if x != fp[0] { BeforeIsTransitive(e.name, fp[0].name, x.name); }
        }
        SortedFromFront(e, fp);
      } else {
        InsertKeepsSorted(e, fp[1..]);
        var rest := Insert(e, fp[1..]);
        forall x | x in rest ensures Before(fp[0].name, x.name) {
          assert x in multiset(rest);
        }
        SortedFromFront(fp[0], rest);
      }
    }
  }

  /** Sorting entries with distinct names gives the sorted tuple of exactly those entries. */
  lemma {:induction false} SortSorts(es: seq<Entry>)
    requires Distinct(es)
    ensures SortedByName(Sort(es))
    ensures forall x :: x in Sort(es) <==> x in es
  {
    if es != [] {
      var init, e := es[..|es| - 1], es[|es| - 1];
      SortSorts(init);
      InsertKeepsSorted(e, Sort(init));
    }
    assert forall x :: x in Sort(es) <==> x in multiset(Sort(es));
    assert forall x :: x in es <==> x in multiset(es);
  }

  /** A sorted tuple is determined by its entries. */
  lemma {:induction false} SortedIsUnique(a: seq<Entry>, b: seq<Entry>)
    requires SortedByName(a) && SortedByName(b) && forall e :: e in a <==> e in b
    ensures a == b
  {
    if |a| > 0 || |b| > 0 {
      assert |a| > 0 ==> a[0] in b;
      assert |b| > 0 ==> b[0] in a;
      FirstIsLeast(a, b);
      forall e ensures e in a[1..] <==> e in b[1..] {
        NamedOnce(a, e);
        NamedOnce(b, e);
      }
      SortedIsUnique(a[1..], b[1..]);
      assert a == [a[0]] + a[1..] && b == [b[0]] + b[1..];
    }
  }

  lemma FirstIsLeast(a: seq<Entry>, b: seq<Entry>)
    requires SortedByName(a) && SortedByName(b) && |a| > 0 && |b| > 0 && a[0] in b && b[0] in a
    ensures a[0] == b[0]
  {
    BeforeIsTotal(a[0].name, b[0].name);
  }

  lemma NamedOnce(fp: seq<Entry>, e: Entry)
    requires SortedByName(fp) && |fp| > 0
    ensures e in fp[1..] <==> e in fp && e != fp[0]
  {
    BeforeIsTotal(fp[0].name, fp[0].name);
    if e in fp && e != fp[0] {
      var i :| 0 <= i < |fp| && fp[i] == e;
      assert fp[1..][i - 1] == e;
    }
  }

  lemma {:induction false} InsertLast(e: Entry, fp: seq<Entry>)
    requires SortedByName(fp + [e])
    ensures Insert(e, fp) == fp + [e]
  {
    if fp != [] {
      assert (fp + [e])[0] == fp[0] && (fp + [e])[|fp|] == e;
      BeforeIsTotal(fp[0].name, e.name);
      assert fp[1..] + [e] == (fp + [e])[1..];
      InsertLast(e, fp[1..]);
    }
  }

  lemma {:induction false} SortOfSorted(fp: seq<Entry>)
    requires SortedByName(fp)
    ensures Sort(fp) == fp
  {
    if fp != [] {
      var init, e := fp[..|fp| - 1], fp[|fp| - 1];
      assert fp == init + [e];
      SortOfSorted(init);
      InsertLast(e, init);
    }
  }
}
