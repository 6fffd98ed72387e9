/** Exactly when a deny line added to an ACL file gives somebody access. */
module AclDenyLines {
  import opened Bytes
  import opened Acl
  import opened AclPolarity

  // Any file, any include tree.

  /** What adding a deny line can do to a result, above and below deny entries. */
  predicate SameOrStops(s: Status, t: Status)
  {
    s == t || s.Stops() || t.Stops()
  }

  lemma {:induction false} EntrySameOrStops(w: World, v: World, who: Identity, entry: string, default: DefaultScheme,
                                            file: string, f: string, at: nat, line: Line)
    requires Acyclic(w) && Acyclic(v) && InsertedLine(w, v, f, at, line) && DenyLine(line)
    ensures SameOrStops(CheckEntry(w, who, entry, default, file), CheckEntry(v, who, entry, default, file))
    decreases 3 * Height(w, Targets(w, entry, default, file)), 1, |entry|
  {
    match Dispatch(entry, default) {
      case FileCheck(path) =>
        assert w.stat(path) == v.stat(path);
        forall g | g in Included(w, path, file) ensures SameOrStops(CheckFile(w, who, g), CheckFile(v, who, g)) {
          FileSameOrStops(w, v, who, g, f, at, line);
        }
        MergeSameOrStops(w, v, who, Included(w, path, file));
      case DenyCheck(inner) =>
        EntrySameOrStops(w, v, who, inner, PrincDefault, file, f, at, line);
      case _ =>
    }
  }

  lemma {:induction false} MergeSameOrStops(w: World, v: World, who: Identity, files: seq<string>)
    requires Acyclic(w) && Acyclic(v)
    requires forall g :: g in files ==> SameOrStops(CheckFile(w, who, g), CheckFile(v, who, g))
    ensures SameOrStops(Merge(w, who, files), Merge(v, who, files))
  {
    if files != [] {
      assert files[0] in files;
      MergeSameOrStops(w, v, who, files[1..]);
    }
  }

  lemma {:induction false} FileSameOrStops(w: World, v: World, who: Identity, g: string, f: string, at: nat, line: Line)
    requires Acyclic(w) && Acyclic(v) && InsertedLine(w, v, f, at, line) && DenyLine(line)
    ensures SameOrStops(CheckFile(w, who, g), CheckFile(v, who, g))
    decreases 3 * w.rank(g) + 2, 0, 0
  {
    if w.read(g).Some? {
      LinesSameOrStops(w, v, who, w.read(g).value, v.read(g).value, g, f, at, at, line);
    }
  }

  /** The lines of file g before and after, from any place on. */
  lemma {:induction false} LinesSameOrStops(w: World, v: World, who: Identity, lines: seq<Line>, longer: seq<Line>,
                                            g: string, f: string, n: nat, at: nat, line: Line)
    requires Acyclic(w) && Acyclic(v) && InsertedLine(w, v, f, n, line) && DenyLine(line)
    requires LinesBelow(w, lines, g) && LinesBelow(v, longer, g)
    requires longer == lines || (at <= |lines| && longer == Insert(lines, at, line))
    ensures SameOrStops(CheckLines(w, who, lines, g), CheckLines(v, who, longer, g))
    decreases 3 * w.rank(g) + 1, 0, |longer|
  {
    DenyLineNeverGrants(v, who, line, g);
    hide CheckEntry, CheckLines, Dispatch, InsertedLine, LinesBelow, Acyclic;
    if longer != [] {
      CheckLinesStep(v, who, longer, g);
    }
    if lines != [] {
      CheckLinesStep(w, who, lines, g);
    }
    if longer != lines && at == 0 {
      assert longer[1..] == lines;
      LinesSameOrStops(w, v, who, lines, lines, g, f, n, 0, line);
    } else if lines != [] {
      assert longer[0] == lines[0];
      if longer != lines {
        assert longer[1..] == Insert(lines[1..], at - 1, line);
      }
      if lines[0].Entry? {
        EntrySameOrStops(w, v, who, lines[0].entry, lines[0].scheme, g, f, n, line);
      }
      LinesSameOrStops(w, v, who, lines[1..], longer[1..], g, f, n, if at == 0 then 0 else at - 1, line);
    } else {
      CheckNoLines(w, v, who, g);
    }
  }

  lemma {:induction false} DecisionSameOrStops(w: World, v: World, who: Identity, acls: seq<string>, file: string,
                                               f: string, at: nat, line: Line)
    requires Acyclic(w) && Acyclic(v) && InsertedLine(w, v, f, at, line) && DenyLine(line)
    ensures SameOrStops(Decision(w, who, acls, file), Decision(v, who, acls, file))
  {
    if acls != [] {
      EntrySameOrStops(w, v, who, acls[0], FileDefault, file, f, at, line);
      DecisionSameOrStops(w, v, who, acls[1..], file, f, at, line);
    }
  }

  /**
   * For every list of entries and wherever the file is included from: adding the line gives access exactly if
   * the client is permitted afterwards and was refused before.  A client nothing was said about gains nothing.
   */
  lemma DenyLineAnywhere(w: World, v: World, who: Identity, acls: seq<string>, file: string,
                         f: string, at: nat, line: Line)
    requires Acyclic(w) && Acyclic(v) && InsertedLine(w, v, f, at, line) && DenyLine(line)
    ensures (Permits(v, who, acls, file) ==> Permits(w, who, acls, file))
       <==> !(Permits(v, who, acls, file) && Decision(w, who, acls, file).Stops())
    ensures Decision(w, who, acls, file).NoMatch? ==> !Permits(v, who, acls, file)
  {
    DecisionSameOrStops(w, v, who, acls, file, f, at, line);
  }

  // A path below denies.

  /** Nothing that a file includes leads back to it. */
  lemma {:induction false} BelowMisses(w: World, entry: string, default: DefaultScheme, file: string, f: string)
    requires Acyclic(w) && Height(w, Targets(w, entry, default, file)) <= w.rank(f)
    ensures Misses(w, entry, default, file, f)
    decreases 3 * Height(w, Targets(w, entry, default, file)), 1, |entry|
  {
    match Dispatch(entry, default) {
      case FileCheck(path) =>
        forall g | g in Included(w, path, file) ensures g != f && MissesFrom(w, g, f) {
          BelowMissesFrom(w, g, f);
        }
      case DenyCheck(inner) =>
        BelowMisses(w, inner, PrincDefault, file, f);
      case _ =>
    }
  }

  lemma {:induction false} BelowMissesFrom(w: World, g: string, f: string)
    requires Acyclic(w) && w.rank(g) < w.rank(f)
    ensures MissesFrom(w, g, f)
    decreases 3 * w.rank(g) + 2, 0, 0
  {
    if w.read(g).Some? {
      var lines := w.read(g).value;
      assert LinesBelow(w, lines, g);
      forall i | 0 <= i < |lines| && lines[i].Entry? ensures Misses(w, lines[i].entry, lines[i].scheme, g, f) {
        BelowMisses(w, lines[i].entry, lines[i].scheme, g, f);
      }
    }
  }

  lemma {:induction false} LinesAppend(w: World, who: Identity, xs: seq<Line>, ys: seq<Line>, file: string)
    requires Acyclic(w) && LinesBelow(w, xs, file) && LinesBelow(w, ys, file)
    ensures LinesBelow(w, xs + ys, file)
    ensures CheckLines(w, who, xs + ys, file)
         == if CheckLines(w, who, xs, file).NoMatch? then CheckLines(w, who, ys, file) else CheckLines(w, who, xs, file)
    decreases |xs|
  {
    var all := xs + ys;
    assert LinesBelow(w, all, file);
    hide CheckEntry, CheckLines, LinesBelow, Acyclic;
    if xs == [] {
      assert all == ys;
      CheckNoLines(w, w, who, file);
    } else {
      CheckLinesStep(w, who, xs, file);
      CheckLinesStep(w, who, all, file);
      assert all[0] == xs[0] && all[1..] == xs[1..] + ys;
      LinesAppend(w, who, xs[1..], ys, file);
    }
  }

  /** The line changes the result of its file f exactly if it is reached and stops. */
  ghost predicate LineStops(w: World, v: World, who: Identity, f: string, at: nat, line: Line)
    requires Acyclic(w) && Acyclic(v) && InsertedLine(w, v, f, at, line) && line.Entry?
  {
    assert LinesBelow(w, w.read(f).value, f);
    CheckLines(w, who, w.read(f).value[..at], f).NoMatch? && CheckEntry(v, who, line.entry, line.scheme, f).Stops()
  }

  /** The lines of a file and any part of them. */
  lemma LinesOfFile(w: World, who: Identity, f: string, at: nat)
    requires Acyclic(w) && w.read(f).Some? && at <= |w.read(f).value|
    ensures var lines := w.read(f).value;
            && CheckFile(w, who, f) == CheckLines(w, who, lines, f)
            && LinesBelow(w, lines[..at], f) && LinesBelow(w, lines[at..], f) && lines == lines[..at] + lines[at..]
  {
    assert LinesBelow(w, w.read(f).value, f);
    hide CheckLines;
  }

  lemma InsertedParts(w: World, v: World, f: string, at: nat, line: Line)
    requires InsertedLine(w, v, f, at, line)
    ensures v.read(f).Some? && at < |v.read(f).value|
    ensures var lines, longer := w.read(f).value, v.read(f).value;
            && longer[..at] == lines[..at] && longer[at..] == [line] + lines[at..]
            && longer[..at + 1] == lines[..at] + [line] && longer[at + 1..] == lines[at..]
  {
  }

  lemma FileWithLine(w: World, v: World, who: Identity, f: string, at: nat, line: Line)
    requires Acyclic(w) && Acyclic(v) && InsertedLine(w, v, f, at, line) && DenyLine(line)
    ensures CheckFile(v, who, f) ==
            if LineStops(w, v, who, f, at, line) then CheckEntry(v, who, line.entry, line.scheme, f)
            else CheckFile(w, who, f)
  {
    hide CheckEntry, CheckLines, CheckFile, LinesBelow, Acyclic;
    DenyLineNeverGrants(v, who, line, f);
    InsertedParts(w, v, f, at, line);
    LinesOfFile(w, who, f, at);
    LinesOfFile(v, who, f, at);
    LinesOfFile(v, who, f, at + 1);
    hide InsertedLine, DenyLine;
    var head, tail := w.read(f).value[..at], w.read(f).value[at..];
    BelowSplit(v, [line], tail, f);
    SameLines(w, v, who, head, f, at, line);
    SameLines(w, v, who, tail, f, at, line);
    OneLine(v, who, line, f);
    LinesAppend(w, who, head, tail, f);
    LinesAppend(v, who, head, [line], f);
    LinesAppend(v, who, head + [line], tail, f);
  }

  lemma BelowSplit(v: World, xs: seq<Line>, ys: seq<Line>, f: string)
    requires LinesBelow(v, xs + ys, f)
    ensures LinesBelow(v, xs, f)
  {
    assert forall i :: 0 <= i < |xs| ==> xs[i] == (xs + ys)[i];
  }

  lemma OneLine(v: World, who: Identity, line: Line, f: string)
    requires Acyclic(v) && line.Entry? && LinesBelow(v, [line], f)
    ensures CheckLines(v, who, [line], f) == CheckEntry(v, who, line.entry, line.scheme, f)
  {
    hide CheckEntry;
    assert [line][1..] == [];
  }

  lemma SameLines(w: World, v: World, who: Identity, lines: seq<Line>, f: string, at: nat, line: Line)
    requires Acyclic(w) && Acyclic(v) && InsertedLine(w, v, f, at, line) && DenyLine(line)
    requires LinesBelow(w, lines, f) && LinesBelow(v, lines, f)
    ensures CheckLines(v, who, lines, f) == CheckLines(w, who, lines, f)
  {
    forall i | 0 <= i < |lines| && lines[i].Entry? ensures Misses(w, lines[i].entry, lines[i].scheme, f, f) {
      BelowMisses(w, lines[i].entry, lines[i].scheme, f, f);
    }
    LinesAfterInsert(w, v, who, lines, lines, f, f, at, 0, line, true);
  }

  /** The result of files among which one is replaced. */
  lemma {:induction false} MergeWithLine(w: World, v: World, who: Identity, pre: seq<string>, f: string,
                                         post: seq<string>)
    requires Acyclic(w) && Acyclic(v)
    requires forall g :: g in pre || g in post ==> CheckFile(v, who, g) == CheckFile(w, who, g)
    requires CheckFile(v, who, f) == CheckFile(w, who, f) || CheckFile(v, who, f).Stops()
    ensures var files := pre + [f] + post;
            Merge(v, who, files) ==
              if (exists g :: g in pre && CheckFile(w, who, g).Stops()) || CheckFile(v, who, f) == CheckFile(w, who, f)
              then Merge(w, who, files) else CheckFile(v, who, f)
    decreases |pre|
  {
    var files := pre + [f] + post;
    hide CheckFile;
    if pre == [] {
      assert files[0] == f && files[1..] == post;
      SameMerge(w, v, who, post);
    } else {
      assert files[0] == pre[0] && files[1..] == pre[1..] + [f] + post;
      assert pre[0] in pre;
      assert forall g :: g in pre <==> g == pre[0] || g in pre[1..];
      MergeWithLine(w, v, who, pre[1..], f, post);
    }
  }

  lemma {:induction false} SameMerge(w: World, v: World, who: Identity, files: seq<string>)
    requires Acyclic(w) && Acyclic(v) && forall g :: g in files ==> CheckFile(v, who, g) == CheckFile(w, who, g)
    ensures Merge(v, who, files) == Merge(w, who, files)
  {
    if files != [] {
      SameMerge(w, v, who, files[1..]);
    }
  }

  /** The path includes f and other files that do not lead to it. */
  ghost predicate IncludesOnce(w: World, path: string, pre: seq<string>, f: string, post: seq<string>)
    requires Acyclic(w)
  {
    FilesAt(w, path) == pre + [f] + post && forall g :: g in pre || g in post ==> g != f && MissesFrom(w, g, f)
  }

  ghost predicate AllMiss(w: World, acls: seq<string>, file: string, f: string)
    requires Acyclic(w)
  {
    forall i :: 0 <= i < |acls| ==> Misses(w, acls[i], FileDefault, file, f)
  }

  lemma {:induction false} SameDecision(w: World, v: World, who: Identity, acls: seq<string>, file: string,
                                        f: string, at: nat, line: Line)
    requires Acyclic(w) && Acyclic(v) && InsertedLine(w, v, f, at, line) && DenyLine(line) && AllMiss(w, acls, file, f)
    ensures Decision(v, who, acls, file) == Decision(w, who, acls, file)
  {
    if acls != [] {
      EntryAfterInsert(w, v, who, acls[0], FileDefault, file, f, at, line);
      SameDecision(w, v, who, acls[1..], file, f, at, line);
    }
  }

  /** The result of the path with the added line. */
  lemma PathWithLine(w: World, v: World, who: Identity, path: string, pre: seq<string>, f: string, post: seq<string>,
                     at: nat, line: Line)
    requires Acyclic(w) && Acyclic(v) && InsertedLine(w, v, f, at, line) && DenyLine(line)
    requires IncludesOnce(w, path, pre, f, post)
    ensures FilesAt(v, path) == FilesAt(w, path)
    ensures Merge(v, who, FilesAt(w, path)) ==
            if LineStops(w, v, who, f, at, line) && (forall g :: g in pre ==> !CheckFile(w, who, g).Stops())
            then CheckEntry(v, who, line.entry, line.scheme, f) else Merge(w, who, FilesAt(w, path))
  {
    assert w.stat(path) == v.stat(path);
    FileWithLine(w, v, who, f, at, line);
    forall g | g in pre || g in post ensures CheckFile(v, who, g) == CheckFile(w, who, g) {
      FileAfterInsert(w, v, who, g, f, at, line, true);
    }
    hide CheckFile, CheckEntry, Merge, DenyLine, Acyclic, InsertedLine;
    MergeWithLine(w, v, who, pre, f, post);
    MergeUnchanged(w, who, pre, f, post);
  }

  /** A result that stops is that of the files, if none before it stops. */
  lemma {:induction false} MergeUnchanged(w: World, who: Identity, pre: seq<string>, f: string, post: seq<string>)
    requires Acyclic(w)
    ensures CheckFile(w, who, f).Stops() && (forall g :: g in pre ==> !CheckFile(w, who, g).Stops()) ==>
      Merge(w, who, pre + [f] + post) == CheckFile(w, who, f)
    decreases |pre|
  {
    var files := pre + [f] + post;
    hide CheckFile;
    if pre == [] {
      assert files[0] == f && files[1..] == post;
    } else {
      assert files[0] == pre[0] && files[1..] == pre[1..] + [f] + post;
      MergeUnchanged(w, who, pre[1..], f, post);
    }
  }

  /**
   * When a line added to a file f below k denies gives access: the entries before say nothing, no file before f
   * stops, the lines before say nothing, the line denies, the included path was refused but not silent below the
   * denies, and the entries after it permit.
   */
  ghost predicate GivesAccess(w: World, v: World, who: Identity, before: seq<string>, k: nat, path: string,
                              pre: seq<string>, f: string, more: seq<string>, file: string, at: nat, line: Line)
    requires Acyclic(w) && Acyclic(v) && InsertedLine(w, v, f, at, line) && line.Entry?
  {
    assert LinesBelow(w, w.read(f).value, f);
    && Decision(w, who, before, file).NoMatch?
    && (forall g :: g in pre ==> !CheckFile(w, who, g).Stops())
    && CheckLines(w, who, w.read(f).value[..at], f).NoMatch?
    && CheckEntry(v, who, line.entry, line.scheme, f).Deny?
    && !Passes(k, Merge(w, who, FilesAt(w, path)))
    && Permits(w, who, more, file)
  }

  /** Below denies, an added deny line keeps everybody else out exactly if it is not such a line. */
  lemma DenyLineExact(w: World, v: World, who: Identity, before: seq<string>, k: nat, path: string, pre: seq<string>,
                      f: string, post: seq<string>, more: seq<string>, file: string, at: nat, line: Line)
    requires Acyclic(w) && Acyclic(v) && InsertedLine(w, v, f, at, line) && DenyLine(line)
    requires k > 0 && path != file && IncludesOnce(w, path, pre, f, post)
    requires AllMiss(w, before, file, f) && AllMiss(w, more, file, f)
    ensures var acls := before + [Denied(k, "file:" + path)] + more;
            (Permits(v, who, acls, file) ==> Permits(w, who, acls, file))
            <==> !GivesAccess(w, v, who, before, k, path, pre, f, more, file, at, line)
  {
    assert w.stat(path) == v.stat(path);
    PathWithLine(w, v, who, path, pre, f, post, at, line);
    SameDecision(w, v, who, before, file, f, at, line);
    SameDecision(w, v, who, more, file, f, at, line);
    hide CheckEntry, CheckFile, CheckLines, Merge, Decision, Permits, InsertedLine, Acyclic, DenyLine;
    assert !w.stat(path).Missing? && w.stat(path) != Directory(None);
    DeniedInclude(w, who, before, k, path, more, file);
    DeniedInclude(v, who, before, k, path, more, file);
  }

  /** For a file that one deny entry includes directly: the lines after the added one decide. */
  lemma DenyLineInFile(w: World, v: World, who: Identity, f: string, more: seq<string>, file: string, at: nat,
                       line: Line)
    requires Acyclic(w) && Acyclic(v) && InsertedLine(w, v, f, at, line) && DenyLine(line)
    requires w.stat(f) == Plain && f != file && AllMiss(w, more, file, f)
    ensures var acls, lines := ["deny:" + ("file:" + f)] + more, w.read(f).value;
            && LinesBelow(w, lines[..at], f) && LinesBelow(w, lines[at..], f)
            && ((Permits(v, who, acls, file) ==> Permits(w, who, acls, file)) <==>
                !(CheckLines(w, who, lines[..at], f).NoMatch? && CheckEntry(v, who, line.entry, line.scheme, f).Deny?
                  && CheckLines(w, who, lines[at..], f) in {Success, Error} && Permits(w, who, more, file)))
  {
    var lines := w.read(f).value;
    assert LinesBelow(w, lines, f) && lines == lines[..at] + lines[at..];
    assert LinesBelow(w, lines[..at], f) && LinesBelow(w, lines[at..], f);
    LinesAppend(w, who, lines[..at], lines[at..], f);
    assert Denied(1, "file:" + f) == "deny:" + Denied(0, "file:" + f);
    assert [] + ["deny:" + ("file:" + f)] + more == ["deny:" + ("file:" + f)] + more;
    assert FilesAt(w, f) == [] + [f] + [];
    DenyLineExact(w, v, who, [], 1, f, [], f, [], more, file, at, line);
    hide CheckEntry, CheckLines;
    assert [f][1..] == [] && Merge(w, who, [f]) == CheckFile(w, who, f) == CheckLines(w, who, lines, f);
  }
}
