/** Adding a `deny:` entry, to an ACL list or to an ACL file, never lets anybody in. */
module AclPolarity {
  import opened Bytes
  import opened Acl

  function Insert<T>(s: seq<T>, at: nat, x: T): (t: seq<T>)
    requires at <= |s|
  {
    s[..at] + [x] + s[at..]
  }

  // Lists of entries.

  lemma DenyNeverGrants(w: World, who: Identity, x: string, default: DefaultScheme, file: string)
    requires Acyclic(w)
    ensures CheckEntry(w, who, "deny:" + x, default, file)
         == Negate(CheckEntry(w, who, x, PrincDefault, file)) != Success
  {
    DispatchDeny(x, default);
  }

  /** A doubled deny is silent, unless what it denies reports an error. */
  lemma DoubleDeny(w: World, who: Identity, x: string, default: DefaultScheme, file: string)
    requires Acyclic(w)
    ensures CheckEntry(w, who, "deny:" + ("deny:" + x), default, file)
         == if CheckEntry(w, who, x, PrincDefault, file).Error? then Error else NoMatch
  {
    DenyNeverGrants(w, who, "deny:" + x, default, file);
    DenyNeverGrants(w, who, x, PrincDefault, file);
  }

  /** An entry that is silent can be inserted anywhere; one that never grants can only take away. */
  lemma {:induction false} InsertEntry(w: World, who: Identity, acls: seq<string>, at: nat, entry: string, file: string)
    requires Acyclic(w) && at <= |acls| && !CheckEntry(w, who, entry, FileDefault, file).Success?
    ensures Permits(w, who, Insert(acls, at, entry), file) ==> Permits(w, who, acls, file)
    ensures CheckEntry(w, who, entry, FileDefault, file).NoMatch? ==>
      (Permits(w, who, Insert(acls, at, entry), file) <==> Permits(w, who, acls, file))
  {
    var longer := Insert(acls, at, entry);
    if at == 0 {
      assert longer[1..] == acls;
    } else {
      assert longer[0] == acls[0] && longer[1..] == Insert(acls[1..], at - 1, entry);
      InsertEntry(w, who, acls[1..], at - 1, entry, file);
    }
  }

  lemma DenyInListOnlyTakesAway(w: World, acls: seq<string>, at: nat, x: string, file: string)
    requires Acyclic(w) && at <= |acls|
    ensures forall who :: Permits(w, who, Insert(acls, at, "deny:" + x), file) ==> Permits(w, who, acls, file)
  {
    forall who | Permits(w, who, Insert(acls, at, "deny:" + x), file) ensures Permits(w, who, acls, file) {
      DenyNeverGrants(w, who, x, FileDefault, file);
      InsertEntry(w, who, acls, at, "deny:" + x, file);
    }
  }

  lemma DoubleDenyInList(w: World, who: Identity, acls: seq<string>, at: nat, x: string, file: string)
    requires Acyclic(w) && at <= |acls| && !CheckEntry(w, who, x, PrincDefault, file).Error?
    ensures Permits(w, who, Insert(acls, at, "deny:" + ("deny:" + x)), file) <==> Permits(w, who, acls, file)
  {
    DoubleDeny(w, who, x, FileDefault, file);
    InsertEntry(w, who, acls, at, "deny:" + ("deny:" + x), file);
  }

  // Several denies before one entry.

  function Denied(k: nat, entry: string): string
  {
    if k == 0 then entry else "deny:" + Denied(k - 1, entry)
  }

  function Negated(k: nat, s: Status): Status
  {
    if k == 0 then s else Negate(Negated(k - 1, s))
  }

  lemma {:induction false} CheckDenied(w: World, who: Identity, k: nat, entry: string, default: DefaultScheme,
                                       file: string)
    requires Acyclic(w) && k > 0
    ensures CheckEntry(w, who, Denied(k, entry), default, file)
         == Negated(k, CheckEntry(w, who, entry, PrincDefault, file))
  {
    hide CheckEntry;
    DenyNeverGrants(w, who, Denied(k - 1, entry), default, file);
    if k > 1 {
      CheckDenied(w, who, k - 1, entry, PrincDefault, file);
    }
  }

  /** The results that become silent under k denies. */
  predicate Passes(k: nat, s: Status)
  {
    s.NoMatch? || s.Deny? || (s.Success? && k > 1)
  }

  /** Under denies nothing matches any more; a result is silent or, under one deny, turns into a refusal. */
  lemma {:induction false} NegatedMeaning(k: nat, s: Status)
    requires k > 0
    ensures Negated(k, s) == if Passes(k, s) then NoMatch else if s.Error? then Error else Deny
  {
    if k > 1 {
      NegatedMeaning(k - 1, s);
    }
  }

  /** A list of entries before, between and after. */
  lemma {:induction false} DecisionAppend(w: World, who: Identity, xs: seq<string>, ys: seq<string>, file: string)
    requires Acyclic(w)
    ensures Decision(w, who, xs + ys, file)
         == if Decision(w, who, xs, file).NoMatch? then Decision(w, who, ys, file) else Decision(w, who, xs, file)
  {
    hide CheckEntry;
    var all := xs + ys;
    if xs == [] {
      assert all == ys;
    } else {
      assert all[0] == xs[0] && all[1..] == xs[1..] + ys;
      DecisionAppend(w, who, xs[1..], ys, file);
    }
  }

  /** The decision of a list with an included path under denies in it. */
  lemma DeniedInclude(w: World, who: Identity, before: seq<string>, k: nat, path: string, more: seq<string>,
                      file: string)
    requires Acyclic(w) && k > 0 && path != file && !w.stat(path).Missing? && w.stat(path) != Directory(None)
    ensures var s := Merge(w, who, FilesAt(w, path));
            Permits(w, who, before + [Denied(k, "file:" + path)] + more, file) <==>
              Permits(w, who, before, file) ||
              (Decision(w, who, before, file).NoMatch? && Passes(k, s) && Permits(w, who, more, file))
  {
    var entry := Denied(k, "file:" + path);
    DispatchFile(path, PrincDefault);
    CheckDenied(w, who, k, "file:" + path, FileDefault, file);
    NegatedMeaning(k, Merge(w, who, FilesAt(w, path)));
    DecisionAppend(w, who, before + [entry], more, file);
    DecisionAppend(w, who, before, [entry], file);
    hide Dispatch, Merge, Denied;
    assert CheckEntry(w, who, "file:" + path, PrincDefault, file) == Merge(w, who, FilesAt(w, path));
    hide CheckEntry;
    assert [entry][1..] == [];
  }

  // Lines of files.

  /** World v is world w with a line inserted into the file f. */
  ghost predicate InsertedLine(w: World, v: World, f: string, at: nat, line: Line)
  {
    && (forall p: string :: w.stat(p) == v.stat(p))
    && (forall who: Identity, s: string, d: string :: w.foreign(who, s, d) == v.foreign(who, s, d))
    && (forall p: string :: p != f ==> w.read(p) == v.read(p))
    && w.read(f).Some? && at <= |w.read(f).value|
    && v.read(f) == Some(Insert(w.read(f).value, at, line))
  }

  /** The entry does not lead to the file f. */
  ghost predicate Misses(w: World, entry: string, default: DefaultScheme, file: string, f: string)
    requires Acyclic(w)
    decreases 3 * Height(w, Targets(w, entry, default, file)), 1, |entry|
  {
    match Dispatch(entry, default)
    case FileCheck(path) => forall g :: g in Included(w, path, file) ==> g != f && MissesFrom(w, g, f)
    case DenyCheck(inner) => Misses(w, inner, PrincDefault, file, f)
    case _ => true
  }

  ghost predicate MissesFrom(w: World, g: string, f: string)
    requires Acyclic(w)
    decreases 3 * w.rank(g) + 2, 0, 0
  {
    w.read(g).Some? ==>
      forall i :: 0 <= i < |w.read(g).value| && w.read(g).value[i].Entry? ==>
        Misses(w, w.read(g).value[i].entry, w.read(g).value[i].scheme, g, f)
  }

  /** The entry does not lead to the file f through a deny entry. */
  ghost predicate NotUnderDeny(w: World, entry: string, default: DefaultScheme, file: string, f: string)
    requires Acyclic(w)
    decreases 3 * Height(w, Targets(w, entry, default, file)), 1, |entry|
  {
    match Dispatch(entry, default)
    case FileCheck(path) => forall g :: g in Included(w, path, file) ==> NotUnderDenyFrom(w, g, f)
    case DenyCheck(inner) => Misses(w, inner, PrincDefault, file, f)
    case _ => true
  }

  ghost predicate NotUnderDenyFrom(w: World, g: string, f: string)
    requires Acyclic(w)
    decreases 3 * w.rank(g) + 2, 0, 0
  {
    w.read(g).Some? ==>
      forall i :: 0 <= i < |w.read(g).value| && w.read(g).value[i].Entry? ==>
        NotUnderDeny(w, w.read(g).value[i].entry, w.read(g).value[i].scheme, g, f)
  }

  /** The inserted line is silent. */
  ghost predicate Silent(v: World, who: Identity, line: Line, f: string)
    requires Acyclic(v)
  {
    line.Entry? && CheckEntry(v, who, line.entry, line.scheme, f).NoMatch?
  }

  predicate DenyLine(line: Line)
  {
    line.Entry? && Dispatch(line.entry, line.scheme).DenyCheck?
  }

  /** What inserting a line may do to a result: nothing, or turn it into a refusal. */
  predicate Lowered(s: Status, t: Status)
  {
    t == s || t.Stops()
  }

  lemma {:induction false} EntryAfterInsert(w: World, v: World, who: Identity, entry: string, default: DefaultScheme,
                                            file: string, f: string, at: nat, line: Line)
    requires Acyclic(w) && Acyclic(v) && InsertedLine(w, v, f, at, line)
    requires Silent(v, who, line, f) || DenyLine(line)
    requires Silent(v, who, line, f) || Misses(w, entry, default, file, f) || NotUnderDeny(w, entry, default, file, f)
    ensures Lowered(CheckEntry(w, who, entry, default, file), CheckEntry(v, who, entry, default, file))
    ensures Silent(v, who, line, f) || Misses(w, entry, default, file, f) ==>
      CheckEntry(v, who, entry, default, file) == CheckEntry(w, who, entry, default, file)
    decreases 3 * Height(w, Targets(w, entry, default, file)), 1, |entry|
  {
    match Dispatch(entry, default) {
      case FileCheck(path) =>
        assert w.stat(path) == v.stat(path);
        forall g | g in Included(w, path, file)
          ensures Lowered(CheckFile(w, who, g), CheckFile(v, who, g))
          ensures Silent(v, who, line, f) || Misses(w, entry, default, file, f) ==>
            CheckFile(w, who, g) == CheckFile(v, who, g)
        {
          FileAfterInsert(w, v, who, g, f, at, line, Silent(v, who, line, f) || Misses(w, entry, default, file, f));
        }
        MergeAfterInsert(w, v, who, Included(w, path, file));
      case DenyCheck(inner) =>
        EntryAfterInsert(w, v, who, inner, PrincDefault, file, f, at, line);
      case _ =>
    }
  }

  lemma {:induction false} MergeAfterInsert(w: World, v: World, who: Identity, files: seq<string>)
    requires Acyclic(w) && Acyclic(v)
    requires forall g :: g in files ==> Lowered(CheckFile(w, who, g), CheckFile(v, who, g))
    ensures Lowered(Merge(w, who, files), Merge(v, who, files))
    ensures (forall g :: g in files ==> CheckFile(w, who, g) == CheckFile(v, who, g)) ==>
      Merge(w, who, files) == Merge(v, who, files)
  {
    if files != [] {
      assert files[0] in files;
      MergeAfterInsert(w, v, who, files[1..]);
    }
  }

  lemma {:induction false} FileAfterInsert(w: World, v: World, who: Identity, g: string, f: string, at: nat,
                                           line: Line, same: bool)
    requires Acyclic(w) && Acyclic(v) && InsertedLine(w, v, f, at, line)
    requires Silent(v, who, line, f) || DenyLine(line)
    requires Silent(v, who, line, f) || (g != f && MissesFrom(w, g, f)) || (!same && NotUnderDenyFrom(w, g, f))
    ensures Lowered(CheckFile(w, who, g), CheckFile(v, who, g))
    ensures same ==> CheckFile(w, who, g) == CheckFile(v, who, g)
    decreases 3 * w.rank(g) + 2, 0, 0
  {
    if w.read(g).Some? {
      LinesAfterInsert(w, v, who, w.read(g).value, v.read(g).value, g, f, at, at, line, same);
    }
  }

  /** The lines of file g before and after, from any place on. */
  lemma DenyLineNeverGrants(v: World, who: Identity, line: Line, file: string)
    requires Acyclic(v) && DenyLine(line)
    ensures !CheckEntry(v, who, line.entry, line.scheme, file).Success?
  {
  }

  /** The inserted line is silent or refuses. */
  lemma InsertedNeverGrants(v: World, who: Identity, line: Line, f: string)
    requires Acyclic(v) && (Silent(v, who, line, f) || DenyLine(line))
    ensures line.Entry? && !CheckEntry(v, who, line.entry, line.scheme, f).Success?
    ensures Silent(v, who, line, f) <==> CheckEntry(v, who, line.entry, line.scheme, f).NoMatch?
  {
    if DenyLine(line) {
      DenyLineNeverGrants(v, who, line, f);
    }
  }

  lemma CheckNoLines(w: World, v: World, who: Identity, file: string)
    requires Acyclic(w) && Acyclic(v)
    ensures LinesBelow(w, [], file) && CheckLines(w, who, [], file) == NoMatch
    ensures LinesBelow(v, [], file) && CheckLines(v, who, [], file) == NoMatch
  {
  }

  /** What the first line decides. */
  lemma CheckLinesStep(w: World, who: Identity, lines: seq<Line>, file: string)
    requires Acyclic(w) && LinesBelow(w, lines, file) && lines != []
    ensures LinesBelow(w, lines[1..], file)
    ensures CheckLines(w, who, lines, file) ==
            match lines[0]
            case Blank => CheckLines(w, who, lines[1..], file)
            case ParseError => Error
            case Entry(entry, scheme) =>
              var s := CheckEntry(w, who, entry, scheme, file);
              if s.NoMatch? then CheckLines(w, who, lines[1..], file) else s
    ensures forall i :: 0 <= i < |lines[1..]| ==> lines[1..][i] == lines[i + 1]
  {
  }

  lemma {:induction false} LinesAfterInsert(w: World, v: World, who: Identity, lines: seq<Line>, longer: seq<Line>,
                                            g: string, f: string, n: nat, at: nat, line: Line, same: bool)
    requires Acyclic(w) && Acyclic(v) && InsertedLine(w, v, f, n, line)
    requires LinesBelow(w, lines, g) && LinesBelow(v, longer, g)
    requires Silent(v, who, line, f) || DenyLine(line)
    requires longer == lines || (g == f && at <= |lines| && longer == Insert(lines, at, line))
    requires longer != lines && same ==> Silent(v, who, line, f)
    requires forall i :: 0 <= i < |lines| && lines[i].Entry? ==>
      || Silent(v, who, line, f)
      || Misses(w, lines[i].entry, lines[i].scheme, g, f)
      || (!same && NotUnderDeny(w, lines[i].entry, lines[i].scheme, g, f))
    ensures Lowered(CheckLines(w, who, lines, g), CheckLines(v, who, longer, g))
    ensures same ==> CheckLines(w, who, lines, g) == CheckLines(v, who, longer, g)
    decreases 3 * w.rank(g) + 1, 0, |longer|
  {
    InsertedNeverGrants(v, who, line, f);
    hide Misses, NotUnderDeny, CheckEntry, CheckLines, Dispatch, InsertedLine, LinesBelow, Acyclic, Silent, DenyLine;
    if longer != [] {
      CheckLinesStep(v, who, longer, g);
    }
    if lines != [] {
      CheckLinesStep(w, who, lines, g);
    }
    if longer != lines && at == 0 {
      assert longer[1..] == lines;
      LinesAfterInsert(w, v, who, lines, lines, g, f, n, 0, line, same);
    } else if lines != [] {
      assert longer[0] == lines[0];
      if longer != lines {
        assert longer[1..] == Insert(lines[1..], at - 1, line);
      }
      if lines[0].Entry? {
        EntryAfterInsert(w, v, who, lines[0].entry, lines[0].scheme, g, f, n, line);
      }
      LinesAfterInsert(w, v, who, lines[1..], longer[1..], g, f, n, if at == 0 then 0 else at - 1, line, same);
    } else {
      CheckNoLines(w, v, who, g);
    }
  }

  /** A deny line inserted into an ACL file that no deny entry leads to never enlarges the set of permitted clients. */
  lemma {:induction false} DenyInFileOnlyTakesAway(w: World, v: World, who: Identity, acls: seq<string>, file: string,
                                                   f: string, at: nat, line: Line)
    requires Acyclic(w) && Acyclic(v) && InsertedLine(w, v, f, at, line) && DenyLine(line)
    requires forall i :: 0 <= i < |acls| ==> NotUnderDeny(w, acls[i], FileDefault, file, f)
    ensures Permits(v, who, acls, file) ==> Permits(w, who, acls, file)
  {
    if acls != [] {
      EntryAfterInsert(w, v, who, acls[0], FileDefault, file, f, at, line);
      DenyInFileOnlyTakesAway(w, v, who, acls[1..], file, f, at, line);
    }
  }

  /** A silent line, such as a doubled deny without error, can be inserted into any file without effect. */
  lemma {:induction false} SilentLineChangesNothing(w: World, v: World, who: Identity, acls: seq<string>,
                                                    file: string, f: string, at: nat, line: Line)
    requires Acyclic(w) && Acyclic(v) && InsertedLine(w, v, f, at, line) && Silent(v, who, line, f)
    ensures Permits(v, who, acls, file) <==> Permits(w, who, acls, file)
  {
    if acls != [] {
      EntryAfterInsert(w, v, who, acls[0], FileDefault, file, f, at, line);
      SilentLineChangesNothing(w, v, who, acls[1..], file, f, at, line);
    }
  }

  lemma DoubleDenyInFile(w: World, v: World, who: Identity, acls: seq<string>, file: string, f: string, at: nat,
                         x: string)
    requires Acyclic(w) && Acyclic(v)
    requires InsertedLine(w, v, f, at, Entry("deny:" + ("deny:" + x), PrincDefault))
    requires !CheckEntry(v, who, x, PrincDefault, f).Error?
    ensures Permits(v, who, acls, file) <==> Permits(w, who, acls, file)
  {
    DoubleDeny(v, who, x, PrincDefault, f);
    SilentLineChangesNothing(w, v, who, acls, file, f, at, Entry("deny:" + ("deny:" + x), PrincDefault));
  }

  /** A file f with these lines, and nothing else of note. */
  function OneFile(f: string, lines: seq<Line>): World
  {
    World(
      path => Plain,
      path => if path == f then Some(lines) else None,
      (who, scheme, data) => NotGranted,
      path => 0)
  }

  lemma DeniedFileDecides(f: string, lines: seq<Line>, who: Identity, file: string)
    requires f != file && lines != [] && Acyclic(OneFile(f, lines))
    requires LinesBelow(OneFile(f, lines), lines, f)
    ensures var w := OneFile(f, lines);
            Permits(w, who, ["deny:" + ("file:" + f), "princ:" + who.user], file)
            <==> CheckLines(w, who, lines, f).Deny? || CheckLines(w, who, lines, f).NoMatch?
  {
    var w, acls := OneFile(f, lines), ["deny:" + ("file:" + f), "princ:" + who.user];
    DispatchPrinc(who.user, FileDefault);
    DispatchFile(f, PrincDefault);
    DispatchDeny("file:" + f, FileDefault);
    assert FilesAt(w, f) == [f];
    assert Merge(w, who, [f][1..]) == NoMatch;
    assert Include(w, who, f, file) == Merge(w, who, [f]) == CheckFile(w, who, f) == CheckLines(w, who, lines, f);
    assert CheckEntry(w, who, "file:" + f, PrincDefault, file) == CheckLines(w, who, lines, f);
    assert CheckEntry(w, who, acls[0], FileDefault, file) == Negate(CheckLines(w, who, lines, f));
    assert acls[1..] == ["princ:" + who.user];
    assert Permits(w, who, acls[1..], file);
  }

  /** The entries princ:u and deny:princ:u, in any world. */
  lemma UserEntries(w: World, who: Identity, f: string)
    requires Acyclic(w)
    ensures CheckEntry(w, who, "princ:" + who.user, PrincDefault, f) == Success
    ensures CheckEntry(w, who, "deny:" + ("princ:" + who.user), PrincDefault, f) == Deny
  {
    DispatchPrinc(who.user, PrincDefault);
    DenyNeverGrants(w, who, "princ:" + who.user, PrincDefault, f);
  }

  /** Lines that include nothing. */
  lemma UserLines(f: string, user: string, lines: seq<Line>)
    requires forall i :: 0 <= i < |lines| ==>
      lines[i] == Entry("princ:" + user, PrincDefault) || lines[i] == Entry("deny:" + ("princ:" + user), PrincDefault)
    ensures Acyclic(OneFile(f, lines)) && LinesBelow(OneFile(f, lines), lines, f)
  {
    DispatchPrinc(user, PrincDefault);
    DispatchDeny("princ:" + user, PrincDefault);
    hide Dispatch;
    var w := OneFile(f, lines);
    forall g ensures Targets(w, "deny:" + ("princ:" + user), PrincDefault, g) == [] {
      assert Targets(w, "princ:" + user, PrincDefault, g) == [];
    }
    assert forall g :: Targets(w, "princ:" + user, PrincDefault, g) == [];
  }

  lemma FirstLineDecides(w: World, who: Identity, entry: string, more: seq<Line>, f: string)
    requires Acyclic(w) && LinesBelow(w, [Entry(entry, PrincDefault)] + more, f)
    requires !CheckEntry(w, who, entry, PrincDefault, f).NoMatch?
    ensures CheckLines(w, who, [Entry(entry, PrincDefault)] + more, f) == CheckEntry(w, who, entry, PrincDefault, f)
  {
    hide CheckEntry;
  }

  /** Below a deny entry the same insertion can give access: the file's own refusal is turned into no match. */
  lemma DenyUnderDenyGivesAccess(f: string, who: Identity, file: string)
    requires f != file
    ensures var line := Entry("princ:" + who.user, PrincDefault);
            var deny := Entry("deny:" + ("princ:" + who.user), PrincDefault);
            var acls := ["deny:" + ("file:" + f), "princ:" + who.user];
            var w, v := OneFile(f, [line]), OneFile(f, Insert([line], 0, deny));
            && Acyclic(w) && Acyclic(v) && InsertedLine(w, v, f, 0, deny) && DenyLine(deny)
            && !Permits(w, who, acls, file) && Permits(v, who, acls, file)
  {
    hide CheckEntry, CheckLines, Permits, Dispatch, Targets, LinesBelow, Acyclic;
    var line := Entry("princ:" + who.user, PrincDefault);
    var deny := Entry("deny:" + ("princ:" + who.user), PrincDefault);
    DispatchDeny("princ:" + who.user, PrincDefault);
    var w, v := OneFile(f, [line]), OneFile(f, [deny] + [line]);
    assert Insert([line], 0, deny) == [deny] + [line] && [line] == [line] + [];
    UserLines(f, who.user, [line]);
    UserLines(f, who.user, [deny] + [line]);
    UserEntries(w, who, f);
    UserEntries(v, who, f);
    FirstLineDecides(w, who, line.entry, [], f);
    FirstLineDecides(v, who, deny.entry, [line], f);
    DeniedFileDecides(f, [line], who, file);
    DeniedFileDecides(f, [deny] + [line], who, file);
  }
}
