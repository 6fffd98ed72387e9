/** Splitting strings into vectors and joining them again (util/vector.c). */
module Vector {
  import opened Bytes

  /** The strings in order with the separator between each two of them. */
  function Join(parts: seq<Data>, sep: Data): Data
  {
    if parts == [] then
      []
    else if |parts| == 1 then
      parts[0]
    else
      Join(parts[..|parts| - 1], sep) + sep + parts[|parts| - 1]
  }

  lemma JoinSnoc(parts: seq<Data>, part: Data, sep: Data)
    ensures Join(parts + [part], sep) == if parts == [] then part else Join(parts, sep) + sep + part
  {
    assert (parts + [part])[..|parts|] == parts;
  }

  /** Strings without the separator that give the original back when joined. */
  ghost predicate IsSplit(s: Data, sep: byte, parts: seq<Data>)
  {
    && parts != []
    && Join(parts, [sep]) == s
    && forall k :: 0 <= k < |parts| ==> sep !in parts[k]
  }

  lemma NoLaterSeparator(x: Data, sep: byte, a: Data, q: nat)
    requires sep !in a && q < |x + [sep] + a| && (x + [sep] + a)[q] == sep
    ensures q <= |x|
  {
    assert forall k :: |x| < k < |x + [sep] + a| ==> (x + [sep] + a)[k] == a[k - |x| - 1];
  }

  /** What comes after the last separator of a string is determined by the string. */
  lemma LastPart(x: Data, y: Data, sep: byte, a: Data, b: Data)
    requires x + [sep] + a == y + [sep] + b && sep !in a && sep !in b
    ensures x == y && a == b
  {
    var s := x + [sep] + a;
    assert s[|x|] == sep && s[|x| + 1..] == a && s[..|x|] == x;
    assert (y + [sep] + b)[|y|] == sep && s[|y| + 1..] == b && s[..|y|] == y;
    NoLaterSeparator(x, sep, a, |y|);
    NoLaterSeparator(y, sep, b, |x|);
  }

  lemma SeparatorShows(sep: byte, parts: seq<Data>)
    requires parts != [] && forall k :: 0 <= k < |parts| ==> sep !in parts[k]
    ensures |parts| > 1 <==> sep in Join(parts, [sep])
  {
    if |parts| > 1 {
      var x := Join(parts[..|parts| - 1], [sep]);
      assert Join(parts, [sep])[|x|] == sep;
    }
  }

  /** A string splits in one way only. */
  lemma {:induction false} SplitUnique(s: Data, sep: byte, one: seq<Data>, other: seq<Data>)
    requires IsSplit(s, sep, one) && IsSplit(s, sep, other)
    ensures one == other
    decreases |one|
  {
    var n, m := |one| - 1, |other| - 1;
    SeparatorShows(sep, one);
    SeparatorShows(sep, other);
    if n > 0 {
      var x, y := Join(one[..n], [sep]), Join(other[..m], [sep]);
      LastPart(x, y, sep, one[n], other[m]);
      SplitUnique(x, sep, one[..n], other[..m]);
      assert one == one[..n] + [one[n]] && other == other[..m] + [other[m]];
    }
  }

  /** How often the octet stands before position n. */
  function Occurrences(s: Data, sep: byte, n: nat): nat
    requires n <= |s|
  {
    if n == 0 then 0 else Occurrences(s, sep, n - 1) + if s[n - 1] == sep then 1 else 0
  }

  lemma {:induction false} OccurrencesMonotone(s: Data, sep: byte, m: nat, n: nat)
    requires m <= n <= |s|
    ensures Occurrences(s, sep, m) <= Occurrences(s, sep, n)
    decreases n
  {
    if m < n {
      OccurrencesMonotone(s, sep, m, n - 1);
    }
  }

  lemma SplitStart(s: Data, sep: byte)
    ensures Occurrences(s, sep, 0) == 0 && IsSplit(s[..0], sep, [] + [s[0..0]])
  {
  }

  lemma SplitAtSeparator(s: Data, sep: byte, parts: seq<Data>)
    requires IsSplit(s, sep, parts)
    ensures IsSplit(s + [sep], sep, parts + [[]])
  {
    JoinSnoc(parts, [], [sep]);
    hide Join;
    assert s + [sep] + [] == s + [sep];
    assert sep !in (parts + [[]])[|parts|];
  }

  lemma SplitExtended(s: Data, sep: byte, stored: seq<Data>, part: Data, c: byte)
    requires IsSplit(s, sep, stored + [part]) && c != sep
    ensures IsSplit(s + [c], sep, stored + [part + [c]])
  {
    JoinSnoc(stored, part, [sep]);
    JoinSnoc(stored, part + [c], [sep]);
    hide Join;
    ConcatAssociative(Join(stored, [sep]) + [sep], part, [c]);
    assert sep !in (stored + [part])[|stored|];
    forall k | 0 <= k < |stored|
      ensures sep !in stored[k]
    {
      assert (stored + [part])[k] == stored[k];
    }
  }

  /** One character of the scan in `vector_split`: stored strings, and the string that begins at start. */
  lemma SplitStep(s: Data, sep: byte, start: nat, p: nat, stored: seq<Data>)
    requires start <= p < |s| && IsSplit(s[..p], sep, stored + [s[start..p]])
    ensures Occurrences(s, sep, p + 1) == Occurrences(s, sep, p) + (if s[p] == sep then 1 else 0)
    ensures Occurrences(s, sep, p + 1) <= Occurrences(s, sep, |s|)
    ensures if s[p] == sep then
              IsSplit(s[..p + 1], sep, (stored + [s[start..p]]) + [s[p + 1..p + 1]])
            else
              IsSplit(s[..p + 1], sep, stored + [s[start..p + 1]])
  {
    hide IsSplit;
    OccurrencesMonotone(s, sep, p + 1, |s|);
    assert s[..p + 1] == s[..p] + [s[p]];
    if s[p] == sep {
      SplitAtSeparator(s[..p], sep, stored + [s[start..p]]);
      assert s[p + 1..p + 1] == [];
    } else {
      SplitExtended(s[..p], sep, stored, s[start..p], s[p]);
      assert s[start..p + 1] == s[start..p] + [s[p]];
    }
  }

  /** How many runs of other octets a separator has ended before position n. */
  function RunsEnded(s: Data, seps: Data, n: nat): nat
    requires n <= |s|
  {
    if n < 2 then 0 else RunsEnded(s, seps, n - 1) + if s[n - 1] in seps && s[n - 2] !in seps then 1 else 0
  }

  lemma {:induction false} RunsEndedMonotone(s: Data, seps: Data, m: nat, n: nat)
    requires m <= n <= |s|
    ensures RunsEnded(s, seps, m) <= RunsEnded(s, seps, n)
    decreases n
  {
    if m < n {
      RunsEndedMonotone(s, seps, m, n - 1);
    }
  }

  predicate EndsInRun(s: Data, seps: Data)
  {
    s != [] && s[|s| - 1] !in seps
  }

  /** The octets from one position up to another. */
  datatype Cut = Cut(from: int, to: int)

  predicate Free(s: Data, seps: Data, from: int, to: int)
    requires 0 <= from <= to <= |s|
  {
    forall k :: from <= k < to ==> s[k] !in seps
  }

  /** A non-empty stretch without separators that cannot be extended on either side. */
  predicate IsRun(s: Data, seps: Data, c: Cut)
  {
    && 0 <= c.from < c.to <= |s|
    && Free(s, seps, c.from, c.to)
    && (c.from == 0 || s[c.from - 1] in seps)
    && (c.to == |s| || s[c.to] in seps)
  }

  /** The cuts are exactly the maximal runs that end before n. */
  ghost predicate AllRuns(s: Data, seps: Data, n: int, cuts: seq<Cut>)
  {
    forall c :: c in cuts <==> IsRun(s, seps, c) && c.to < n
  }

  ghost predicate InOrder(cuts: seq<Cut>)
  {
    forall j, k :: 0 <= j < k < |cuts| ==> cuts[j].to < cuts[k].to
  }

  ghost predicate RunsBefore(s: Data, seps: Data, n: int, cuts: seq<Cut>)
  {
    AllRuns(s, seps, n, cuts) && InOrder(cuts)
  }

  ghost predicate Cuts(s: Data, parts: seq<Data>, cuts: seq<Cut>)
  {
    && |parts| == |cuts|
    && forall k :: 0 <= k < |cuts| ==> 0 <= cuts[k].from <= cuts[k].to <= |s| && parts[k] == s[cuts[k].from..cuts[k].to]
  }

  /** The strings are exactly the maximal separator-free runs, in order. */
  ghost predicate AreRuns(s: Data, seps: Data, parts: seq<Data>)
  {
    exists cuts :: RunsBefore(s, seps, |s| + 1, cuts) && Cuts(s, parts, cuts)
  }

  lemma DropLast(s: Data, seps: Data, n: int, cuts: seq<Cut>)
    requires cuts != [] && RunsBefore(s, seps, n, cuts)
    ensures RunsBefore(s, seps, cuts[|cuts| - 1].to, cuts[..|cuts| - 1])
  {
    hide IsRun;
    var m := |cuts| - 1;
    assert cuts[m] in cuts;
    forall c
      ensures c in cuts[..m] <==> IsRun(s, seps, c) && c.to < cuts[m].to
    {
      if IsRun(s, seps, c) && c.to < cuts[m].to {
        assert c in cuts && c != cuts[m];
      }
    }
  }

  /** Runs that end at one place start at one place. */
  lemma RunsMeet(s: Data, seps: Data, c: Cut, d: Cut)
    requires IsRun(s, seps, c) && IsRun(s, seps, d) && c.to == d.to
    ensures c == d
  {
  }

  lemma {:induction false} CutsUnique(s: Data, seps: Data, n: int, one: seq<Cut>, other: seq<Cut>)
    requires RunsBefore(s, seps, n, one) && RunsBefore(s, seps, n, other)
    ensures one == other
    decreases |one|
  {
    hide IsRun;
    assert other == [] || other[|other| - 1] in one;
    if one != [] {
      var x := one[|one| - 1];
      assert x in other;
      var y := other[|other| - 1];
      RunsMeet(s, seps, x, y);
      DropLast(s, seps, n, one);
      DropLast(s, seps, n, other);
      CutsUnique(s, seps, x.to, one[..|one| - 1], other[..|other| - 1]);
    }
  }

  /** The runs determine the strings. */
  lemma RunsUnique(s: Data, seps: Data, one: seq<Data>, other: seq<Data>)
    requires AreRuns(s, seps, one) && AreRuns(s, seps, other)
    ensures one == other
  {
    var x :| RunsBefore(s, seps, |s| + 1, x) && Cuts(s, one, x);
    var y :| RunsBefore(s, seps, |s| + 1, y) && Cuts(s, other, y);
    CutsUnique(s, seps, |s| + 1, x, y);
  }

  /** The scan from start has met no separator, and start is where a run may begin. */
  predicate Scanning(s: Data, seps: Data, start: int, p: int)
  {
    0 <= start <= p <= |s| && Free(s, seps, start, p) && (start == 0 || s[start - 1] in seps)
  }

  lemma RunEndingHere(s: Data, seps: Data, start: int, p: int, c: Cut)
    requires Scanning(s, seps, start, p) && IsRun(s, seps, c) && c.to == p
    ensures c == Cut(start, p)
  {
  }

  /** A separator, or the end of the string, at p ends the run from start if that is not empty. */
  lemma NextRun(s: Data, seps: Data, start: int, p: int, cuts: seq<Cut>)
    requires Scanning(s, seps, start, p) && (p == |s| || s[p] in seps) && RunsBefore(s, seps, p, cuts)
    ensures RunsBefore(s, seps, p + 1, if start < p then cuts + [Cut(start, p)] else cuts)
  {
    assert start < p ==> IsRun(s, seps, Cut(start, p));
    hide IsRun;
    var next := if start < p then cuts + [Cut(start, p)] else cuts;
    forall c
      ensures c in next <==> IsRun(s, seps, c) && c.to < p + 1
    {
      if IsRun(s, seps, c) && c.to == p {
        RunEndingHere(s, seps, start, p, c);
        assert start < p by { RunNotEmpty(s, seps, c); }
      }
    }
    forall j | 0 <= j < |cuts|
      ensures cuts[j].to < p
    {
      assert cuts[j] in cuts;
    }
  }

  lemma RunNotEmpty(s: Data, seps: Data, c: Cut)
    requires IsRun(s, seps, c)
    ensures c.from < c.to
  {
  }

  /** No run ends before an octet that is no separator. */
  lemma NoRun(s: Data, seps: Data, p: int, cuts: seq<Cut>)
    requires 0 <= p < |s| && s[p] !in seps && RunsBefore(s, seps, p, cuts)
    ensures RunsBefore(s, seps, p + 1, cuts)
  {
  }

  lemma MultiStart(s: Data, seps: Data)
    ensures Scanning(s, seps, 0, 0) && RunsEnded(s, seps, 0) == 0 && RunsBefore(s, seps, 0, []) && Cuts(s, [], [])
  {
  }

  /** One character of the scan in `vector_split_multi`. */
  lemma MultiStep(s: Data, seps: Data, start: nat, p: nat, cuts: seq<Cut>)
    requires p < |s| && Scanning(s, seps, start, p) && RunsBefore(s, seps, p, cuts)
    ensures RunsEnded(s, seps, p + 1) == RunsEnded(s, seps, p) + (if s[p] in seps && start < p then 1 else 0)
    ensures RunsEnded(s, seps, p + 1) <= RunsEnded(s, seps, |s|)
    ensures Scanning(s, seps, if s[p] in seps then p + 1 else start, p + 1)
    ensures RunsBefore(s, seps, p + 1, if s[p] in seps && start < p then cuts + [Cut(start, p)] else cuts)
  {
    hide RunsBefore;
    RunsEndedMonotone(s, seps, p + 1, |s|);
    assert start < p <==> p > 0 && s[p - 1] !in seps;
    if s[p] in seps {
      NextRun(s, seps, start, p, cuts);
    } else {
      NoRun(s, seps, p, cuts);
    }
  }

  lemma MultiEnd(s: Data, seps: Data, start: nat, cuts: seq<Cut>)
    requires Scanning(s, seps, start, |s|) && RunsBefore(s, seps, |s|, cuts)
    ensures start < |s| <==> EndsInRun(s, seps)
    ensures RunsBefore(s, seps, |s| + 1, if start < |s| then cuts + [Cut(start, |s|)] else cuts)
  {
    hide RunsBefore;
    NextRun(s, seps, start, |s|, cuts);
  }

  /** `split_count`. */
  method SplitCount(s: Data, sep: byte) returns (count: nat)
    ensures count == 1 + Occurrences(s, sep, |s|)
  {
    if s == [] {
      return 1;
    }
    count := 1;
    for p := 0 to |s|
      invariant count == 1 + Occurrences(s, sep, p)
    {
      if s[p] == sep {
        count := count + 1;
      }
    }
  }

  /** `split_multi_count`. */
  method SplitMultiCount(s: Data, seps: Data) returns (count: nat)
    ensures count == RunsEnded(s, seps, |s|) + if EndsInRun(s, seps) then 1 else 0
  {
    if s == [] {
      return 0;
    }
    count := 1;
    for p := 1 to |s|
      invariant count == 1 + RunsEnded(s, seps, p)
    {
      if s[p] in seps && s[p - 1] !in seps {
        count := count + 1;
      }
    }
    if s[|s| - 1] in seps {
      count := count - 1;
    }
  }

  /** `struct vector`: a table of allocated entries, the first count of them in use. */
  class Strings {
    var strings: array<Data>
    var count: nat

    ghost predicate Valid()
      reads this
    {
      count <= strings.Length && 0 < strings.Length
    }

    ghost function Contents(): seq<Data>
      reads this, strings
      requires Valid()
    {
      strings[..count]
    }

    constructor ()
      ensures Valid() && fresh(strings) && Contents() == []
    {
      strings := new Data[1](_ => []);
      count := 0;
    }

    /** `vector_resize`: keeps what fits. */
    method Resize(size: nat)
      requires Valid()
      modifies this
      ensures Valid() && fresh(strings) && strings.Length == (if size == 0 then 1 else size)
      ensures Contents() == if old(count) > size then old(Contents())[..size] else old(Contents())
    {
      if count > size {
        count := size;
      }
      var was := strings;
      var kept := count;
      strings := new Data[if size == 0 then 1 else size](i requires 0 <= i reads this, was =>
        if i < kept && i < was.Length then was[i] else []);
      assert Contents() == was[..kept];
    }

    /** `vector_split`: the counting pass leaves room for every store. */
    method Split(s: Data, sep: byte)
      requires Valid()
      modifies this, strings
      ensures Valid() && (strings == old(strings) || fresh(strings))
      ensures IsSplit(s, sep, Contents()) && count == 1 + Occurrences(s, sep, |s|)
    {
      hide IsSplit, Occurrences, Join;
      count := 0;
      var needed := SplitCount(s, sep);
      if strings.Length < needed {
        Resize(needed);
      }
      var start, i := 0, 0;
      SplitStart(s, sep);
      for p := 0 to |s|
        invariant count == 0 && needed <= strings.Length && (strings == old(strings) || fresh(strings))
        invariant 0 <= start <= p && i == Occurrences(s, sep, p)
        invariant i < needed && IsSplit(s[..p], sep, strings[..i] + [s[start..p]])
      {
        ghost var stored := strings[..i];
        SplitStep(s, sep, start, p, stored);
        if s[p] == sep {
          strings[i] := s[start..p];
          i := i + 1;
          assert strings[..i] == stored + [s[start..p]];
          start := p + 1;
        }
      }
      ghost var stored := strings[..i];
      strings[i] := s[start..];
      count := i + 1;
      assert s[..|s|] == s && Contents() == stored + [s[start..|s|]];
    }

    /** `vector_split_multi`. */
    method SplitMulti(s: Data, seps: Data)
      requires Valid()
      modifies this, strings
      ensures Valid() && (strings == old(strings) || fresh(strings))
      ensures AreRuns(s, seps, Contents())
      ensures count == RunsEnded(s, seps, |s|) + if EndsInRun(s, seps) then 1 else 0
    {
      hide RunsBefore, Cuts, RunsEnded, Scanning;
      count := 0;
      var needed := SplitMultiCount(s, seps);
      if strings.Length < needed {
        Resize(needed);
      }
      var start, i := 0, 0;
      ghost var cuts: seq<Cut> := [];
      MultiStart(s, seps);
      assert strings[..0] == [];
      for p := 0 to |s|
        invariant count == 0 && needed <= strings.Length && (strings == old(strings) || fresh(strings))
        invariant 0 < strings.Length && start <= p && Scanning(s, seps, start, p)
        invariant i == RunsEnded(s, seps, p) <= needed
        invariant RunsBefore(s, seps, p, cuts) && Cuts(s, strings[..i], cuts)
      {
        MultiStep(s, seps, start, p, cuts);
        if s[p] in seps {
          if start != p {
            i := Store(s, start, p, i, cuts);
            cuts := cuts + [Cut(start, p)];
          }
          start := p + 1;
        }
      }
      MultiEnd(s, seps, start, cuts);
      if start != |s| {
        i := Store(s, start, |s|, i, cuts);
        cuts := cuts + [Cut(start, |s|)];
      }
      count := i;
    }

    /** `vector->strings[i++] = xstrndup(start, p - start)` */
    method Store(s: Data, start: nat, p: nat, i: nat, ghost cuts: seq<Cut>) returns (next: nat)
      requires start <= p <= |s| && i < strings.Length && Cuts(s, strings[..i], cuts)
      modifies strings
      ensures next == i + 1 && Cuts(s, strings[..next], cuts + [Cut(start, p)])
    {
      ghost var stored := strings[..i];
      strings[i] := s[start..p];
      next := i + 1;
      assert strings[..next] == stored + [s[start..p]];
    }

    /** The sizing pass of `vector_join`. */
    method JoinedSize(separator: Data) returns (size: nat)
      requires Valid() && count > 0
      ensures size == |Join(Contents(), separator)| + 1
    {
      hide Join, TotalLength;
      ghost var parts := Contents();
      size := 0;
      JoinSize(parts, separator, 0);
      for i := 0 to count
        invariant size == TotalLength(parts[..i])
      {
        JoinSize(parts, separator, i + 1);
        size := size + |strings[i]|;
      }
      JoinSize(parts, separator, count);
      size := size + (count - 1) * |separator| + 1;
    }

    /** `vector_join`: a pass that sizes the string and one that fills it by offset. */
    method JoinWith(separator: Data) returns (joined: Data)
      requires Valid()
      ensures joined == Join(Contents(), separator)
    {
      hide Join;
      if count == 0 {
        JoinSize([], separator, 0);
        return [];
      }
      ghost var parts := Contents();
      JoinSize(parts, separator, 0);
      JoinSize(parts, separator, count);
      var size := JoinedSize(separator);
      var buffer := new byte[size](_ => 0);
      var offset := 0;
      for i := 0 to count
        invariant offset == |Join(parts[..i], separator)| < size == |Join(parts, separator)| + 1
        invariant buffer[..offset] == Join(parts[..i], separator)
      {
        JoinSize(parts, separator, i + 1);
        if i != 0 {
          Memcpy(buffer, offset, separator);
          assert buffer[..offset + |separator|] == Join(parts[..i], separator) + separator;
          offset := offset + |separator|;
        }
        ghost var before := buffer[..offset];
        Memcpy(buffer, offset, strings[i]);
        offset := offset + |strings[i]|;
        assert buffer[..offset] == before + strings[i];
      }
      buffer[offset] := 0;
      joined := buffer[..offset];
    }
  }

  /** The length of the join of the first n strings, and how it comes from that of one string less. */
  lemma JoinSize(parts: seq<Data>, sep: Data, n: nat)
    requires n <= |parts|
    ensures parts[..|parts|] == parts
    ensures n == 0 ==> Join(parts[..n], sep) == [] && TotalLength(parts[..n]) == 0
    ensures n > 0 ==> TotalLength(parts[..n]) == TotalLength(parts[..n - 1]) + |parts[n - 1]|
    ensures n == 1 ==> Join(parts[..n], sep) == parts[0]
    ensures n > 1 ==> Join(parts[..n], sep) == Join(parts[..n - 1], sep) + sep + parts[n - 1]
    ensures |Join(parts[..n], sep)| == TotalLength(parts[..n]) + (if n == 0 then 0 else n - 1) * |sep|
    ensures |Join(parts[..n], sep)| <= |Join(parts, sep)|
  {
    if n > 0 {
      assert parts[..n][..n - 1] == parts[..n - 1];
      JoinLength(parts[..n], sep);
    }
    JoinGrows(parts, sep, n);
  }

  lemma {:induction false} JoinLength(parts: seq<Data>, sep: Data)
    ensures |Join(parts, sep)| == TotalLength(parts) + (if parts == [] then 0 else |parts| - 1) * |sep|
  {
    if |parts| > 1 {
      JoinLength(parts[..|parts| - 1], sep);
      var n := |parts| - 1;
      assert n * |sep| == (n - 1) * |sep| + |sep|;
    }
  }

  lemma {:induction false} JoinGrows(parts: seq<Data>, sep: Data, n: nat)
    requires n <= |parts|
    ensures |Join(parts[..n], sep)| <= |Join(parts, sep)|
    decreases |parts|
  {
    if n < |parts| {
      JoinGrows(parts[..|parts| - 1], sep, n);
      assert parts[..|parts| - 1][..n] == parts[..n];
    } else {
      assert parts[..n] == parts;
    }
  }

  function TotalLength(parts: seq<Data>): nat
  {
    if parts == [] then 0 else TotalLength(parts[..|parts| - 1]) + |parts[|parts| - 1]|
  }
}
