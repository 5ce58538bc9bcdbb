/** The history manager: an append-only log of evaluations, each tagged
    with the flavor of the request that produced it. */
module History {
  import opened Errors

  const STACK: string := "STACK"
  const INDEPENDENT: string := "INDEPENDENT"

  predicate ValidFlavor(f: string) {
    f == STACK || f == INDEPENDENT
  }

  /** One evaluation: the operation name, the arguments it was given and
      its result. */
  datatype Entry = Entry(flavor: string, operation: string, arguments: seq<int>, result: int)

  predicate AllValid(s: seq<Entry>) {
    forall i :: 0 <= i < |s| ==> ValidFlavor(s[i].flavor)
  }

  /** The entries of flavor `f`, in the order they were logged. */
  function Filter(s: seq<Entry>, f: string): (r: seq<Entry>)
    ensures |r| <= |s|
    ensures forall i :: 0 <= i < |r| ==> r[i].flavor == f
    ensures forall e :: e in r <==> e in s && e.flavor == f
  {
    if s == [] then [] else (if s[0].flavor == f then [s[0]] else []) + Filter(s[1..], f)
  }

  /** `a` is `b` with some elements left out, the rest kept in order. */
  predicate Subsequence(a: seq<Entry>, b: seq<Entry>)
    decreases |b|
  {
    if a == [] then true
    else if b == [] then false
    else if a[0] == b[0] then Subsequence(a[1..], b[1..])
    else Subsequence(a, b[1..])
  }

  lemma {:induction false} FilterSubsequence(s: seq<Entry>, f: string)
    ensures Subsequence(Filter(s, f), s)
  {
    if s != [] {
      FilterSubsequence(s[1..], f);
      if s[0].flavor == f {
        assert Filter(s, f) == [s[0]] + Filter(s[1..], f);
        assert Filter(s, f)[1..] == Filter(s[1..], f);
      } else {
        assert Filter(s, f) == Filter(s[1..], f);
        if Filter(s, f) != [] {
          // The first kept entry is not s[0], whose flavor differs.
          assert Filter(s, f)[0].flavor == f;
        }
      }
    }
  }

  /** A flavor's view keeps every occurrence of each entry of that flavor,
      repeats included, and no entry of another flavor. */
  lemma {:induction false} FilterCount(s: seq<Entry>, f: string, e: Entry)
    ensures multiset(Filter(s, f))[e] == if e.flavor == f then multiset(s)[e] else 0
  {
    if s != [] {
      FilterCount(s[1..], f, e);
      assert s == [s[0]] + s[1..];
      assert multiset(Filter(s, f)) ==
        multiset(if s[0].flavor == f then [s[0]] else []) + multiset(Filter(s[1..], f));
    }
  }

  /** Logging one more entry extends exactly the view of its flavor. */
  lemma {:induction false} FilterAppend(s: seq<Entry>, e: Entry, f: string)
    ensures Filter(s + [e], f) == Filter(s, f) + (if e.flavor == f then [e] else [])
  {
    if s == [] {
      assert [e][1..] == [];
    } else {
      assert (s + [e])[1..] == s[1..] + [e];
      FilterAppend(s[1..], e, f);
    }
  }

  /** When every flavor is valid, the STACK and INDEPENDENT views together
      hold every entry exactly once. */
  lemma {:induction false} FilterPartition(s: seq<Entry>)
    requires AllValid(s)
    ensures multiset(Filter(s, STACK)) + multiset(Filter(s, INDEPENDENT)) == multiset(s)
  {
    if s != [] {
      assert AllValid(s[1..]) by {
        forall i | 0 <= i < |s[1..]|
          ensures ValidFlavor(s[1..][i].flavor)
        {
          assert s[1..][i] == s[i + 1];
        }
      }
      FilterPartition(s[1..]);
      assert s == [s[0]] + s[1..];
      assert ValidFlavor(s[0].flavor);
      assert STACK != INDEPENDENT;
    }
  }

  lemma AllValidAppend(s: seq<Entry>, e: Entry)
    requires ValidFlavor(e.flavor)
    ensures AllValid(s + [e]) == AllValid(s)
  {
    if AllValid(s) {
      assert forall i :: 0 <= i < |s| ==> (s + [e])[i] == s[i];
    } else {
      var i :| 0 <= i < |s| && !ValidFlavor(s[i].flavor);
      assert (s + [e])[i] == s[i];
    }
  }

  class HistoryManager {
    var entries: seq<Entry>

    /** Every logged entry carries one of the two flavors. */
    predicate Valid()
      reads this
    {
      AllValid(entries)
    }

    constructor ()
      ensures Valid() && entries == []
    {
      entries := [];
    }

    /** Log an evaluation; a flavor other than STACK or INDEPENDENT is
        refused and nothing is logged. */
    method Record(flavor: string, operation: string, arguments: seq<int>, result: int)
      returns (r: Result<()>)
      modifies this
      ensures Valid() == old(Valid())
      ensures ValidFlavor(flavor) ==>
        r == Ok(()) && entries == old(entries) + [Entry(flavor, operation, arguments, result)]
      ensures !ValidFlavor(flavor) ==> r == Err(InvalidFlavor(flavor)) && entries == old(entries)
    {
      if !ValidFlavor(flavor) {
        return Err(InvalidFlavor(flavor));
      }
      var e := Entry(flavor, operation, arguments, result);
      AllValidAppend(entries, e);
      entries := entries + [e];
      return Ok(());
    }

    /** The log by flavor. With no flavor: every STACK entry, then every
        INDEPENDENT entry, each group in logging order (grouped, not merged
        by time). With a flavor: that flavor's entries, or an error if the
        flavor is neither of the two. */
    function Get(flavor: Option<string>): (r: Result<seq<Entry>>)
      reads this
      ensures flavor.None? ==>
        r.Ok? && r.value == Filter(entries, STACK) + Filter(entries, INDEPENDENT)
      ensures flavor.None? && Valid() ==>
        |r.value| == |entries| && multiset(r.value) == multiset(entries)
      ensures flavor.Some? && !ValidFlavor(flavor.value) ==> r == Err(InvalidFlavor(flavor.value))
      ensures flavor.Some? && ValidFlavor(flavor.value) ==>
        && r.Ok?
        && r.value == Filter(entries, flavor.value)
        && Subsequence(r.value, entries)
        && (forall e :: e in r.value <==> e in entries && e.flavor == flavor.value)
    {
      match flavor
      case None =>
        var grouped := Filter(entries, STACK) + Filter(entries, INDEPENDENT);
        assert Valid() ==> multiset(grouped) == multiset(entries) && |grouped| == |entries| by {
          if Valid() {
            FilterPartition(entries);
            assert |multiset(grouped)| == |multiset(entries)|;
          }
        }
        Ok(grouped)
      case Some(f) =>
        if !ValidFlavor(f) then Err(InvalidFlavor(f))
        else
          FilterSubsequence(entries, f);
          Ok(Filter(entries, f))
    }
  }

  /** The grouped view is not chronological: an INDEPENDENT entry logged
      before a STACK entry is listed after it. */
  lemma GroupedNotChronological(i: Entry, s: Entry)
    requires i.flavor == INDEPENDENT && s.flavor == STACK
    ensures Filter([i, s], STACK) + Filter([i, s], INDEPENDENT) == [s, i]
  {
    assert [i, s][1..] == [s];
    assert [s][1..] == [];
  }
}
