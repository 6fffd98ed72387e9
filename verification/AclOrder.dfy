/** When the order in which directories are listed matters to the ACL engine, and when it does not. */
module AclOrder {
  import opened Bytes
  import opened Acl
  import opened AclPolarity

  ghost predicate SameNames(k1: Kind, k2: Kind)
  {
    || k1 == k2
    || (k1.Directory? && k2.Directory? && k1.names.Some? && k2.names.Some? &&
        (forall name :: name in k1.names.value <==> name in k2.names.value))
  }

  /** Two views of one file system that may list its directories in different orders. */
  ghost predicate SameButOrder(w1: World, w2: World)
  {
    && (forall p: string :: w1.read(p) == w2.read(p))
    && (forall who: Identity, s: string, d: string :: w1.foreign(who, s, d) == w2.foreign(who, s, d))
    && (forall p: string :: SameNames(w1.stat(p), w2.stat(p)))
  }

  lemma SameFiles(w1: World, w2: World, path: string)
    requires SameButOrder(w1, w2)
    ensures forall f :: f in FilesAt(w1, path) <==> f in FilesAt(w2, path)
  {
    assert SameNames(w1.stat(path), w2.stat(path));
  }

  /** The result of several files depends only on which results occur, except for which refusal wins. */
  lemma {:induction false} MergeMeaning(w: World, who: Identity, files: seq<string>)
    requires Acyclic(w)
    ensures Merge(w, who, files).Stops() <==> exists f :: f in files && CheckFile(w, who, f).Stops()
    ensures !Merge(w, who, files).Stops() ==>
      (Merge(w, who, files).Success? <==> exists f :: f in files && CheckFile(w, who, f).Success?)
    ensures Merge(w, who, files).Error? ==> exists f :: f in files && CheckFile(w, who, f).Error?
  {
    if files != [] {
      MergeMeaning(w, who, files[1..]);
      assert files[0] in files && forall f :: f in files <==> f == files[0] || f in files[1..];
    }
  }

  /** No check that the entry leads to reports an error, whichever file of a directory is read. */
  ghost predicate CleanEntry(w: World, who: Identity, entry: string, default: DefaultScheme, file: string)
    requires Acyclic(w)
    decreases 3 * Height(w, Targets(w, entry, default, file)), 1, |entry|
  {
    match Dispatch(entry, default)
    case FileCheck(path) =>
      && path != file && !w.stat(path).Missing? && w.stat(path) != Directory(None)
      && forall f :: f in FilesAt(w, path) ==> CleanFile(w, who, f)
    case DenyCheck(inner) => CleanEntry(w, who, inner, PrincDefault, file)
    case _ => !CheckEntry(w, who, entry, default, file).Error?
  }

  ghost predicate CleanFile(w: World, who: Identity, file: string)
    requires Acyclic(w)
    decreases 3 * w.rank(file) + 2, 0, 0
  {
    w.read(file).Some? && CleanLines(w, who, w.read(file).value, file)
  }

  ghost predicate CleanLines(w: World, who: Identity, lines: seq<Line>, file: string)
    requires Acyclic(w) && LinesBelow(w, lines, file)
    decreases 3 * w.rank(file) + 1, 0, |lines|
  {
    lines != [] ==>
      match lines[0]
      case Blank => CleanLines(w, who, lines[1..], file)
      case ParseError => false
      case Entry(entry, scheme) =>
        && CleanEntry(w, who, entry, scheme, file)
        && (CheckEntry(w, who, entry, scheme, file).NoMatch? ==> CleanLines(w, who, lines[1..], file))
  }

  lemma {:induction false} CleanEntryOrder(w1: World, w2: World, who: Identity, entry: string, default: DefaultScheme,
                                           file: string)
    requires Acyclic(w1) && Acyclic(w2) && SameButOrder(w1, w2)
    requires CleanEntry(w1, who, entry, default, file)
    ensures CheckEntry(w2, who, entry, default, file) == CheckEntry(w1, who, entry, default, file) != Error
    decreases 3 * Height(w1, Targets(w1, entry, default, file)), 1, |entry|
  {
    match Dispatch(entry, default) {
      case FileCheck(path) =>
        SameFiles(w1, w2, path);
        assert SameNames(w1.stat(path), w2.stat(path));
        forall f | f in FilesAt(w1, path)
          ensures CheckFile(w2, who, f) == CheckFile(w1, who, f) != Error
        {
          CleanFileOrder(w1, w2, who, f);
        }
        MergeMeaning(w1, who, FilesAt(w1, path));
        MergeMeaning(w2, who, FilesAt(w2, path));
      case DenyCheck(inner) =>
        CleanEntryOrder(w1, w2, who, inner, PrincDefault, file);
      case _ =>
    }
  }

  lemma {:induction false} CleanFileOrder(w1: World, w2: World, who: Identity, file: string)
    requires Acyclic(w1) && Acyclic(w2) && SameButOrder(w1, w2)
    requires CleanFile(w1, who, file)
    ensures CheckFile(w2, who, file) == CheckFile(w1, who, file) != Error
    decreases 3 * w1.rank(file) + 2, 0, 0
  {
    assert w1.read(file) == w2.read(file);
    CleanLinesOrder(w1, w2, who, w1.read(file).value, file);
  }

  lemma {:induction false} CleanLinesOrder(w1: World, w2: World, who: Identity, lines: seq<Line>, file: string)
    requires Acyclic(w1) && Acyclic(w2) && SameButOrder(w1, w2)
    requires LinesBelow(w1, lines, file) && LinesBelow(w2, lines, file)
    requires CleanLines(w1, who, lines, file)
    ensures CheckLines(w2, who, lines, file) == CheckLines(w1, who, lines, file) != Error
    decreases 3 * w1.rank(file) + 1, 0, |lines|
  {
    if lines != [] {
      if lines[0].Entry? {
        CleanEntryOrder(w1, w2, who, lines[0].entry, lines[0].scheme, file);
      }
      if lines[0].Blank? || CheckEntry(w1, who, lines[0].entry, lines[0].scheme, file).NoMatch? {
        CleanLinesOrder(w1, w2, who, lines[1..], file);
      }
    }
  }

  /** Errors are allowed, but not below a deny entry. */
  ghost predicate CleanUnderDeny(w: World, who: Identity, entry: string, default: DefaultScheme, file: string)
    requires Acyclic(w)
    decreases 3 * Height(w, Targets(w, entry, default, file)), 1, |entry|
  {
    match Dispatch(entry, default)
    case FileCheck(path) => forall f :: f in Included(w, path, file) ==> CleanUnderDenyFile(w, who, f)
    case DenyCheck(inner) => CleanEntry(w, who, inner, PrincDefault, file)
    case _ => true
  }

  ghost predicate CleanUnderDenyFile(w: World, who: Identity, file: string)
    requires Acyclic(w)
    decreases 3 * w.rank(file) + 2, 0, 0
  {
    w.read(file).Some? ==> CleanUnderDenyLines(w, who, w.read(file).value, file)
  }

  ghost predicate CleanUnderDenyLines(w: World, who: Identity, lines: seq<Line>, file: string)
    requires Acyclic(w) && LinesBelow(w, lines, file)
    decreases 3 * w.rank(file) + 1, 0, |lines|
  {
    lines != [] ==>
      match lines[0]
      case Blank => CleanUnderDenyLines(w, who, lines[1..], file)
      case ParseError => true
      case Entry(entry, scheme) =>
        && CleanUnderDeny(w, who, entry, scheme, file)
        && (CheckEntry(w, who, entry, scheme, file).NoMatch? ==> CleanUnderDenyLines(w, who, lines[1..], file))
  }

  /** The same result, or two refusals. */
  predicate Alike(s: Status, t: Status)
  {
    s == t || (s.Stops() && t.Stops())
  }

  lemma {:induction false} EntryOrder(w1: World, w2: World, who: Identity, entry: string, default: DefaultScheme,
                                      file: string)
    requires Acyclic(w1) && Acyclic(w2) && SameButOrder(w1, w2)
    requires CleanUnderDeny(w1, who, entry, default, file)
    ensures Alike(CheckEntry(w1, who, entry, default, file), CheckEntry(w2, who, entry, default, file))
    decreases 3 * Height(w1, Targets(w1, entry, default, file)), 1, |entry|
  {
    match Dispatch(entry, default) {
      case FileCheck(path) =>
        SameFiles(w1, w2, path);
        assert SameNames(w1.stat(path), w2.stat(path));
        forall f | f in Included(w1, path, file) ensures Alike(CheckFile(w1, who, f), CheckFile(w2, who, f)) {
          FileOrder(w1, w2, who, f);
        }
        MergeMeaning(w1, who, Included(w1, path, file));
        MergeMeaning(w2, who, Included(w2, path, file));
      case DenyCheck(inner) =>
        CleanEntryOrder(w1, w2, who, inner, PrincDefault, file);
      case _ =>
    }
  }

  lemma {:induction false} FileOrder(w1: World, w2: World, who: Identity, file: string)
    requires Acyclic(w1) && Acyclic(w2) && SameButOrder(w1, w2)
    requires CleanUnderDenyFile(w1, who, file)
    ensures Alike(CheckFile(w1, who, file), CheckFile(w2, who, file))
    decreases 3 * w1.rank(file) + 2, 0, 0
  {
    assert w1.read(file) == w2.read(file);
    if w1.read(file).Some? {
      LinesOrder(w1, w2, who, w1.read(file).value, file);
    }
  }

  lemma {:induction false} LinesOrder(w1: World, w2: World, who: Identity, lines: seq<Line>, file: string)
    requires Acyclic(w1) && Acyclic(w2) && SameButOrder(w1, w2)
    requires LinesBelow(w1, lines, file) && LinesBelow(w2, lines, file)
    requires CleanUnderDenyLines(w1, who, lines, file)
    ensures Alike(CheckLines(w1, who, lines, file), CheckLines(w2, who, lines, file))
    decreases 3 * w1.rank(file) + 1, 0, |lines|
  {
    if lines != [] && !lines[0].ParseError? {
      if lines[0].Entry? {
        EntryOrder(w1, w2, who, lines[0].entry, lines[0].scheme, file);
      }
      if lines[0].Blank? || CheckEntry(w1, who, lines[0].entry, lines[0].scheme, file).NoMatch? {
        LinesOrder(w1, w2, who, lines[1..], file);
      }
    }
  }

  lemma {:induction false} DecisionOrder(w1: World, w2: World, who: Identity, acls: seq<string>, file: string)
    requires Acyclic(w1) && Acyclic(w2) && SameButOrder(w1, w2)
    requires forall i :: 0 <= i < |acls| ==> CleanUnderDeny(w1, who, acls[i], FileDefault, file)
    ensures Alike(Decision(w1, who, acls, file), Decision(w2, who, acls, file))
  {
    if acls != [] {
      EntryOrder(w1, w2, who, acls[0], FileDefault, file);
      DecisionOrder(w1, w2, who, acls[1..], file);
    }
  }

  /** The decision on a client is the same for every order of every directory. */
  lemma OrderIndependence(w1: World, w2: World, who: Identity, acls: seq<string>, file: string)
    requires Acyclic(w1) && Acyclic(w2) && SameButOrder(w1, w2)
    requires forall i :: 0 <= i < |acls| ==> CleanUnderDeny(w1, who, acls[i], FileDefault, file)
    ensures Permits(w1, who, acls, file) <==> Permits(w2, who, acls, file)
  {
    DecisionOrder(w1, w2, who, acls, file);
  }

  /** An entry without any error below it is in particular clean below its deny entries. */
  lemma {:induction false} CleanIsCleanUnderDeny(w: World, who: Identity, entry: string, default: DefaultScheme,
                                                 file: string)
    requires Acyclic(w) && CleanEntry(w, who, entry, default, file)
    ensures CleanUnderDeny(w, who, entry, default, file)
    decreases 3 * Height(w, Targets(w, entry, default, file)), 1, |entry|
  {
    match Dispatch(entry, default) {
      case FileCheck(path) =>
        forall f | f in Included(w, path, file) ensures CleanUnderDenyFile(w, who, f) {
          CleanLinesUnderDeny(w, who, w.read(f).value, f);
        }
      case _ =>
    }
  }

  lemma {:induction false} CleanLinesUnderDeny(w: World, who: Identity, lines: seq<Line>, file: string)
    requires Acyclic(w) && LinesBelow(w, lines, file) && CleanLines(w, who, lines, file)
    ensures CleanUnderDenyLines(w, who, lines, file)
    decreases 3 * w.rank(file) + 1, 0, |lines|
  {
    if lines != [] {
      if lines[0].Entry? {
        CleanIsCleanUnderDeny(w, who, lines[0].entry, lines[0].scheme, file);
      }
      if lines[0].Blank? || CheckEntry(w, who, lines[0].entry, lines[0].scheme, file).NoMatch? {
        CleanLinesUnderDeny(w, who, lines[1..], file);
      }
    }
  }

  // Exactly when order matters.

  /** What another order can do to a result. */
  predicate SameOrError(s: Status, t: Status)
  {
    s == t || s.Error? || t.Error?
  }

  lemma {:induction false} EntrySameOrError(w1: World, w2: World, who: Identity, entry: string,
                                            default: DefaultScheme, file: string)
    requires Acyclic(w1) && Acyclic(w2) && SameButOrder(w1, w2)
    ensures SameOrError(CheckEntry(w1, who, entry, default, file), CheckEntry(w2, who, entry, default, file))
    decreases 3 * Height(w1, Targets(w1, entry, default, file)), 1, |entry|
  {
    match Dispatch(entry, default) {
      case FileCheck(path) =>
        SameFiles(w1, w2, path);
        assert SameNames(w1.stat(path), w2.stat(path));
        forall f | f in Included(w1, path, file) ensures SameOrError(CheckFile(w1, who, f), CheckFile(w2, who, f)) {
          FileSameOrError(w1, w2, who, f);
        }
        MergeSameOrError(w1, w2, who, Included(w1, path, file), Included(w2, path, file));
      case DenyCheck(inner) =>
        EntrySameOrError(w1, w2, who, inner, PrincDefault, file);
      case _ =>
    }
  }

  lemma MergeSameOrError(w1: World, w2: World, who: Identity, files1: seq<string>, files2: seq<string>)
    requires Acyclic(w1) && Acyclic(w2) && forall f :: f in files1 <==> f in files2
    requires forall f :: f in files1 ==> SameOrError(CheckFile(w1, who, f), CheckFile(w2, who, f))
    ensures SameOrError(Merge(w1, who, files1), Merge(w2, who, files2))
  {
    hide CheckFile;
    MergeMeaning(w1, who, files1);
    MergeMeaning(w2, who, files2);
    if Merge(w1, who, files1).Deny? {
      MergeDenied(w1, who, files1);
    }
    if Merge(w2, who, files2).Deny? {
      MergeDenied(w2, who, files2);
    }
  }

  lemma {:induction false} FileSameOrError(w1: World, w2: World, who: Identity, file: string)
    requires Acyclic(w1) && Acyclic(w2) && SameButOrder(w1, w2)
    ensures SameOrError(CheckFile(w1, who, file), CheckFile(w2, who, file))
    decreases 3 * w1.rank(file) + 2, 0, 0
  {
    assert w1.read(file) == w2.read(file);
    if w1.read(file).Some? {
      LinesSameOrError(w1, w2, who, w1.read(file).value, file);
    }
  }

  lemma {:induction false} LinesSameOrError(w1: World, w2: World, who: Identity, lines: seq<Line>, file: string)
    requires Acyclic(w1) && Acyclic(w2) && SameButOrder(w1, w2)
    requires LinesBelow(w1, lines, file) && LinesBelow(w2, lines, file)
    ensures SameOrError(CheckLines(w1, who, lines, file), CheckLines(w2, who, lines, file))
    decreases 3 * w1.rank(file) + 1, 0, |lines|
  {
    if lines != [] && !lines[0].ParseError? {
      if lines[0].Entry? {
        EntrySameOrError(w1, w2, who, lines[0].entry, lines[0].scheme, file);
      }
      LinesSameOrError(w1, w2, who, lines[1..], file);
    }
  }

  lemma {:induction false} DecisionSameOrError(w1: World, w2: World, who: Identity, acls: seq<string>, file: string)
    requires Acyclic(w1) && Acyclic(w2) && SameButOrder(w1, w2)
    ensures SameOrError(Decision(w1, who, acls, file), Decision(w2, who, acls, file))
  {
    if acls != [] {
      EntrySameOrError(w1, w2, who, acls[0], FileDefault, file);
      DecisionSameOrError(w1, w2, who, acls[1..], file);
    }
  }

  /**
   * Two listings of all the directories, for every list of entries: the decisions are the same exactly if it is
   * not the case that one permits and the first entry that says anything in the other reports an error.
   */
  lemma OrderExact(w1: World, w2: World, who: Identity, acls: seq<string>, file: string)
    requires Acyclic(w1) && Acyclic(w2) && SameButOrder(w1, w2)
    ensures (Permits(w1, who, acls, file) <==> Permits(w2, who, acls, file)) <==>
              && !(Permits(w1, who, acls, file) && Decision(w2, who, acls, file).Error?)
              && !(Permits(w2, who, acls, file) && Decision(w1, who, acls, file).Error?)
  {
    DecisionSameOrError(w1, w2, who, acls, file);
  }

  /** Without an error in either, both the result and the decision are the same. */
  lemma OrderWithoutErrors(w1: World, w2: World, who: Identity, acls: seq<string>, file: string)
    requires Acyclic(w1) && Acyclic(w2) && SameButOrder(w1, w2)
    requires !Decision(w1, who, acls, file).Error? && !Decision(w2, who, acls, file).Error?
    ensures Decision(w1, who, acls, file) == Decision(w2, who, acls, file)
    ensures Permits(w1, who, acls, file) <==> Permits(w2, who, acls, file)
  {
    DecisionSameOrError(w1, w2, who, acls, file);
  }

  /** A view of the same file system that may list its directories in other orders. */
  ghost predicate View(w: World, v: World)
  {
    Acyclic(v) && SameButOrder(w, v)
  }

  /** Order matters to a list of entries exactly if one order permits and another one ends in an error. */
  lemma OrderMattersExactly(w: World, who: Identity, acls: seq<string>, file: string)
    requires Acyclic(w)
    ensures (exists v1, v2 ::
               View(w, v1) && View(w, v2) && Permits(v1, who, acls, file) && !Permits(v2, who, acls, file))
       <==> (exists v1 :: View(w, v1) && Permits(v1, who, acls, file))
            && (exists v2 :: View(w, v2) && Decision(v2, who, acls, file).Error?)
  {
    forall v1, v2 | View(w, v1) && View(w, v2) && Permits(v1, who, acls, file) && !Permits(v2, who, acls, file)
      ensures Decision(v2, who, acls, file).Error?
    {
      SameViews(w, v1, v2);
      DecisionSameOrError(v1, v2, who, acls, file);
    }
  }

  lemma SameViews(w: World, v1: World, v2: World)
    requires SameButOrder(w, v1) && SameButOrder(w, v2)
    ensures SameButOrder(v1, v2)
  {
    forall p: string ensures SameNames(v1.stat(p), v2.stat(p)) {
      assert SameNames(w.stat(p), v1.stat(p)) && SameNames(w.stat(p), v2.stat(p));
    }
    forall p: string ensures v1.read(p) == v2.read(p) {
      assert w.read(p) == v1.read(p) && w.read(p) == v2.read(p);
    }
    forall who: Identity, s: string, d: string ensures v1.foreign(who, s, d) == v2.foreign(who, s, d) {
      assert w.foreign(who, s, d) == v1.foreign(who, s, d) && w.foreign(who, s, d) == v2.foreign(who, s, d);
    }
  }

  // The order of one directory.

  /** Some file of the directory reports an error, and some other file denies. */
  ghost predicate Torn(w: World, who: Identity, files: seq<string>)
    requires Acyclic(w)
  {
    && (exists f :: f in files && CheckFile(w, who, f).Error?)
    && (exists g :: g in files && CheckFile(w, who, g).Deny?)
  }

  ghost predicate Reordered<T>(s: seq<T>, t: seq<T>)
  {
    multiset(s) == multiset(t)
  }

  lemma SameElements<T>(s: seq<T>, t: seq<T>)
    requires Reordered(s, t)
    ensures forall x :: x in s <==> x in t
  {
    assert forall x :: x in s <==> x in multiset(s);
    assert forall x :: x in t <==> x in multiset(t);
  }

  function MovedFirst<T>(s: seq<T>, i: nat): seq<T>
    requires i < |s|
  {
    [s[i]] + s[..i] + s[i + 1..]
  }

  lemma MovedFirstReorders<T>(s: seq<T>, i: nat)
    requires i < |s|
    ensures Reordered(s, MovedFirst(s, i)) && MovedFirst(s, i)[0] == s[i]
  {
    assert s == s[..i] + [s[i]] + s[i + 1..];
  }

  lemma {:induction false} MergeDenied(w: World, who: Identity, files: seq<string>)
    requires Acyclic(w) && Merge(w, who, files).Deny?
    ensures exists g :: g in files && CheckFile(w, who, g).Deny?
  {
    if !CheckFile(w, who, files[0]).Deny? {
      MergeDenied(w, who, files[1..]);
    }
  }

  /** Two orders of a directory that is not torn give the same result. */
  lemma NotTornSameResult(w: World, who: Identity, files: seq<string>, other: seq<string>)
    requires Acyclic(w) && !Torn(w, who, files) && (forall f :: f in files <==> f in other)
    ensures Merge(w, who, other) == Merge(w, who, files)
  {
    MergeMeaning(w, who, files);
    MergeMeaning(w, who, other);
    if Merge(w, who, files).Deny? {
      MergeDenied(w, who, files);
    }
    if Merge(w, who, other).Deny? {
      MergeDenied(w, who, other);
    }
  }

  /** The result of a directory is the same for all orders exactly if it does not hold both an error and a refusal. */
  lemma DirectoryOrderExact(w: World, who: Identity, files: seq<string>)
    requires Acyclic(w)
    ensures (forall other :: Reordered(files, other) ==> Merge(w, who, other) == Merge(w, who, files))
       <==> !Torn(w, who, files)
  {
    if Torn(w, who, files) {
      var i: nat :| i < |files| && CheckFile(w, who, files[i]).Error?;
      var j: nat :| j < |files| && CheckFile(w, who, files[j]).Deny?;
      MovedFirstReorders(files, i);
      MovedFirstReorders(files, j);
      assert Merge(w, who, MovedFirst(files, i)).Error? && Merge(w, who, MovedFirst(files, j)).Deny?;
    } else {
      forall other | Reordered(files, other) ensures Merge(w, who, other) == Merge(w, who, files) {
        SameElements(files, other);
        NotTornSameResult(w, who, files, other);
      }
    }
  }

  // The same for decisions: a world in which one directory is listed in another order.

  function Relisted(w: World, d: string, listing: seq<string>): World
  {
    w.(stat := path => if path == d then Directory(Some(listing)) else w.stat(path))
  }

  lemma {:induction false} HeightBound(w: World, files: seq<string>, n: nat)
    requires forall f :: f in files ==> w.rank(f) < n
    ensures Height(w, files) <= n
  {
    if files != [] {
      HeightBound(w, files[1..], n);
    }
  }

  lemma {:induction false} SameTargets(w: World, v: World, entry: string, default: DefaultScheme, file: string)
    requires SameButOrder(w, v)
    ensures forall f :: f in Targets(w, entry, default, file) <==> f in Targets(v, entry, default, file)
    decreases |entry|
  {
    match Dispatch(entry, default) {
      case FileCheck(path) => SameFiles(w, v, path);
      case DenyCheck(inner) => SameTargets(w, v, inner, PrincDefault, file);
      case _ =>
    }
  }

  lemma AcyclicInAnyOrder(w: World, v: World)
    requires Acyclic(w) && SameButOrder(w, v) && v.rank == w.rank
    ensures Acyclic(v)
  {
    forall f | v.read(f).Some? ensures LinesBelow(v, v.read(f).value, f) {
      assert w.read(f) == v.read(f);
      var lines := w.read(f).value;
      assert LinesBelow(w, lines, f);
      forall i | 0 <= i < |lines| && lines[i].Entry?
        ensures Height(v, Targets(v, lines[i].entry, lines[i].scheme, f)) <= v.rank(f)
      {
        SameTargets(w, v, lines[i].entry, lines[i].scheme, f);
        HeightBound(v, Targets(v, lines[i].entry, lines[i].scheme, f), v.rank(f));
      }
    }
  }

  /** Nothing that the files of a directory include leads back to it, so its order does not matter to them. */
  lemma {:induction false} EntryBelow(w: World, who: Identity, d: string, listing: seq<string>, entry: string,
                                      default: DefaultScheme, file: string)
    requires Acyclic(w) && Acyclic(Relisted(w, d, listing))
    requires Height(w, Targets(w, entry, default, file)) < Height(w, FilesAt(w, d))
    ensures CheckEntry(Relisted(w, d, listing), who, entry, default, file) == CheckEntry(w, who, entry, default, file)
    decreases 3 * Height(w, Targets(w, entry, default, file)), 1, |entry|
  {
    var v := Relisted(w, d, listing);
    match Dispatch(entry, default) {
      case FileCheck(path) =>
        if path != file {
          assert path != d;
          forall f | f in FilesAt(w, path) ensures CheckFile(v, who, f) == CheckFile(w, who, f) {
            FileBelow(w, who, d, listing, f);
          }
          MergeSame(w, v, who, FilesAt(w, path));
        }
      case DenyCheck(inner) =>
        EntryBelow(w, who, d, listing, inner, PrincDefault, file);
      case _ =>
    }
  }

  lemma {:induction false} MergeSame(w: World, v: World, who: Identity, files: seq<string>)
    requires Acyclic(w) && Acyclic(v) && forall f :: f in files ==> CheckFile(v, who, f) == CheckFile(w, who, f)
    ensures Merge(v, who, files) == Merge(w, who, files)
  {
    if files != [] {
      MergeSame(w, v, who, files[1..]);
    }
  }

  lemma {:induction false} FileBelow(w: World, who: Identity, d: string, listing: seq<string>, file: string)
    requires Acyclic(w) && Acyclic(Relisted(w, d, listing)) && w.rank(file) < Height(w, FilesAt(w, d))
    ensures CheckFile(Relisted(w, d, listing), who, file) == CheckFile(w, who, file)
    decreases 3 * w.rank(file) + 2, 0, 0
  {
    if w.read(file).Some? {
      LinesBelowSame(w, who, d, listing, w.read(file).value, file);
    }
  }

  lemma {:induction false} LinesBelowSame(w: World, who: Identity, d: string, listing: seq<string>, lines: seq<Line>,
                                          file: string)
    requires Acyclic(w) && Acyclic(Relisted(w, d, listing)) && w.rank(file) < Height(w, FilesAt(w, d))
    requires LinesBelow(w, lines, file) && LinesBelow(Relisted(w, d, listing), lines, file)
    ensures CheckLines(Relisted(w, d, listing), who, lines, file) == CheckLines(w, who, lines, file)
    decreases 3 * w.rank(file) + 1, 0, |lines|
  {
    if lines != [] && !lines[0].ParseError? {
      if lines[0].Entry? {
        EntryBelow(w, who, d, listing, lines[0].entry, lines[0].scheme, file);
      }
      LinesBelowSame(w, who, d, listing, lines[1..], file);
    }
  }

  /** What a relisted world keeps. */
  lemma RelistedWorld(w: World, who: Identity, d: string, names: seq<string>, listing: seq<string>)
    requires Acyclic(w) && w.stat(d) == Directory(Some(names)) && Reordered(names, listing)
    ensures var v := Relisted(w, d, listing);
            && SameButOrder(w, v) && Acyclic(v)
            && (forall f :: f in FilesAt(w, d) <==> f in FilesAt(v, d))
            && (forall f :: f in FilesAt(w, d) ==> CheckFile(v, who, f) == CheckFile(w, who, f))
            && Merge(v, who, FilesAt(v, d)) == Merge(w, who, FilesAt(v, d))
  {
    var v := Relisted(w, d, listing);
    SameElements(names, listing);
    SameFiles(w, v, d);
    AcyclicInAnyOrder(w, v);
    forall f | f in FilesAt(w, d) ensures CheckFile(v, who, f) == CheckFile(w, who, f) {
      FileBelow(w, who, d, listing, f);
    }
    MergeSame(w, v, who, FilesAt(v, d));
  }

  /** A file of the directory that stops the check decides when it is listed first. */
  lemma ListedFirst(w: World, who: Identity, d: string, names: seq<string>, f: string) returns (listing: seq<string>)
    requires Acyclic(w) && w.stat(d) == Directory(Some(names))
    requires f in FilesAt(w, d) && CheckFile(w, who, f).Stops()
    ensures Reordered(names, listing)
    ensures Merge(w, who, Members(d, listing)) == CheckFile(w, who, f)
  {
    var i: nat :| i < |names| && ValidFilename(names[i]) && f == d + "/" + names[i];
    listing := MovedFirst(names, i);
    MovedFirstReorders(names, i);
    assert Members(d, listing)[0] == f;
  }

  /** What another listing decides, in terms of the world as it was. */
  lemma RelistedDecision(w: World, who: Identity, before: seq<string>, k: nat, d: string, names: seq<string>,
                         more: seq<string>, file: string, listing: seq<string>)
    requires Acyclic(w) && w.stat(d) == Directory(Some(names)) && d != file && k > 0 && Reordered(names, listing)
    requires forall i :: 0 <= i < |before| ==> CleanUnderDeny(w, who, before[i], FileDefault, file)
    requires forall i :: 0 <= i < |more| ==> CleanUnderDeny(w, who, more[i], FileDefault, file)
    ensures var v := Relisted(w, d, listing);
            Acyclic(v) && (Permits(v, who, before + [Denied(k, "file:" + d)] + more, file) <==>
                           Permits(w, who, before, file) ||
                           (Decision(w, who, before, file).NoMatch? && Passes(k, Merge(w, who, Members(d, listing)))
                            && Permits(w, who, more, file)))
  {
    var v := Relisted(w, d, listing);
    RelistedWorld(w, who, d, names, listing);
    hide CheckEntry, Merge, CheckFile, Permits, CleanUnderDeny, Acyclic, SameButOrder;
    DeniedInclude(v, who, before, k, d, more, file);
    DecisionOrder(w, v, who, before, file);
    OrderIndependence(w, v, who, more, file);
  }

  /** A torn directory can be listed so that its result passes and so that it does not. */
  lemma TornBothWays(w: World, who: Identity, k: nat, d: string, names: seq<string>)
    returns (first: seq<string>, second: seq<string>)
    requires Acyclic(w) && w.stat(d) == Directory(Some(names)) && Torn(w, who, FilesAt(w, d))
    ensures Reordered(names, first) && !Passes(k, Merge(w, who, Members(d, first)))
    ensures Reordered(names, second) && Passes(k, Merge(w, who, Members(d, second)))
  {
    var f :| f in FilesAt(w, d) && CheckFile(w, who, f).Error?;
    var g :| g in FilesAt(w, d) && CheckFile(w, who, g).Deny?;
    first := ListedFirst(w, who, d, names, f);
    second := ListedFirst(w, who, d, names, g);
  }

  lemma NotTornOneWay(w: World, who: Identity, d: string, names: seq<string>, listing: seq<string>)
    requires Acyclic(w) && w.stat(d) == Directory(Some(names)) && Reordered(names, listing)
    requires !Torn(w, who, FilesAt(w, d))
    ensures Merge(w, who, Members(d, listing)) == Merge(w, who, FilesAt(w, d))
  {
    RelistedWorld(w, who, d, names, listing);
    NotTornSameResult(w, who, FilesAt(w, d), Members(d, listing));
  }

  /**
   * A directory below any number of denies, between entries for which order does not matter: the decision is
   * the same for every listing of the directory exactly if it is not torn or the other entries decide.
   */
  lemma DenyDirectoryExact(w: World, who: Identity, before: seq<string>, k: nat, d: string, names: seq<string>,
                           more: seq<string>, file: string)
    requires Acyclic(w) && w.stat(d) == Directory(Some(names)) && d != file && k > 0
    requires forall i :: 0 <= i < |before| ==> CleanUnderDeny(w, who, before[i], FileDefault, file)
    requires forall i :: 0 <= i < |more| ==> CleanUnderDeny(w, who, more[i], FileDefault, file)
    ensures var acls := before + [Denied(k, "file:" + d)] + more;
            (forall listing :: Reordered(names, listing) ==>
               var v := Relisted(w, d, listing);
               Acyclic(v) && (Permits(v, who, acls, file) <==> Permits(w, who, acls, file)))
            <==> !(Torn(w, who, FilesAt(w, d)) && Decision(w, who, before, file).NoMatch?
                   && Permits(w, who, more, file))
  {
    hide CheckEntry, Merge, CheckFile, Permits, Decision, CleanUnderDeny, Acyclic, Torn, Reordered, Relisted, Denied;
    hide Passes;
    var acls := before + [Denied(k, "file:" + d)] + more;
    DeniedInclude(w, who, before, k, d, more, file);
    forall listing | Reordered(names, listing)
      ensures var v := Relisted(w, d, listing);
              Acyclic(v) && (Permits(v, who, acls, file) <==>
                             Permits(w, who, before, file) ||
                             (Decision(w, who, before, file).NoMatch? && Passes(k, Merge(w, who, Members(d, listing)))
                              && Permits(w, who, more, file)))
    {
      RelistedDecision(w, who, before, k, d, names, more, file, listing);
    }
    if Torn(w, who, FilesAt(w, d)) {
      var first, second := TornBothWays(w, who, k, d, names);
      assert Acyclic(Relisted(w, d, first)) && Acyclic(Relisted(w, d, second));
    } else {
      forall listing | Reordered(names, listing)
        ensures Merge(w, who, Members(d, listing)) == Merge(w, who, FilesAt(w, d))
      {
        NotTornOneWay(w, who, d, names, listing);
      }
    }
  }

  /** A directory d of an unreadable file and of a file b that denies the user u. */
  function ErrorBelowDeny(d: string, names: seq<string>, b: string, u: string): World
  {
    World(
      path => if path == d then Directory(Some(names)) else Plain,
      path => if path == d + "/" + b then Some([Entry("deny:" + ("princ:" + u), PrincDefault)]) else None,
      (who, scheme, data) => NotGranted,
      path => 0)
  }

  lemma ErrorBelowDenyFiles(d: string, names: seq<string>, b: string, who: Identity, f: string)
    ensures Acyclic(ErrorBelowDeny(d, names, b, who.user))
    ensures CheckFile(ErrorBelowDeny(d, names, b, who.user), who, f) == if f == d + "/" + b then Deny else Error
  {
    var u := who.user;
    var w, entry := ErrorBelowDeny(d, names, b, u), "deny:" + ("princ:" + u);
    DispatchPrinc(u, PrincDefault);
    DispatchDeny("princ:" + u, PrincDefault);
    forall g ensures Targets(w, entry, PrincDefault, g) == [] {
      assert Targets(w, "princ:" + u, PrincDefault, g) == [];
    }
    assert CheckEntry(w, who, "princ:" + u, PrincDefault, f) == Success;
    var line := Entry(entry, PrincDefault);
    assert CheckLines(w, who, [line], f) == Deny;
  }

  /** The entry file:d below denies and princ:u, the files a and b in either order: the first file decides. */
  lemma FirstFileDecides(k: nat, d: string, names: seq<string>, b: string, who: Identity, file: string)
    requires names != [] && ValidFilename(names[0]) && file != d && k > 0
    ensures var w := ErrorBelowDeny(d, names, b, who.user);
            Acyclic(w) && (Permits(w, who, [Denied(k, "file:" + d), "princ:" + who.user], file) <==> names[0] == b)
  {
    var w, u := ErrorBelowDeny(d, names, b, who.user), "princ:" + who.user;
    var first := d + "/" + names[0];
    ErrorBelowDenyFiles(d, names, b, who, first);
    DispatchPrinc(who.user, FileDefault);
    assert Permits(w, who, [u], file);
    hide Dispatch, CheckFile, CheckLines, CheckEntry, Acyclic, ValidFilename, Denied;
    assert [] + [Denied(k, "file:" + d)] + [u] == [Denied(k, "file:" + d), u];
    DeniedInclude(w, who, [], k, d, [u], file);
    hide Permits;
    assert FilesAt(w, d)[0] == first;
    assert first == d + "/" + b <==> names[0] == b by {
      assert first[|d + "/"|..] == names[0] && (d + "/" + b)[|d + "/"|..] == b;
    }
  }

  /**
   * With an error below a deny entry, or below several, listing two files of a directory in the other order
   * changes the decision.
   */
  lemma OrderMattersUnderDeny(k: nat, d: string, a: string, b: string, who: Identity, file: string)
    requires ValidFilename(a) && ValidFilename(b) && a != b && file != d && k > 0
    ensures var w1, w2 := ErrorBelowDeny(d, [b, a], b, who.user), ErrorBelowDeny(d, [a, b], b, who.user);
            var acls := [Denied(k, "file:" + d), "princ:" + who.user];
            && Acyclic(w1) && Acyclic(w2) && SameButOrder(w1, w2)
            && Permits(w1, who, acls, file) && !Permits(w2, who, acls, file)
  {
    FirstFileDecides(k, d, [b, a], b, who, file);
    FirstFileDecides(k, d, [a, b], b, who, file);
  }
}
