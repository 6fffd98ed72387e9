/** What the ACL engine promises about grants: each rests on a real match. */
module AclTheorems {
  import opened Bytes
  import opened Acl

  // A permitted client is named by some leaf check that no deny entry leads to.

  predicate LeafGrants(w: World, who: Identity, c: Check)
  {
    match c
    case PrincCheck(user) => who.user == user
    case AnyUserCheck(data) => data == "anonymous" || (data == "auth" && !who.anonymous)
    case ForeignCheck(scheme, data) => w.foreign(who, scheme, data) == Granted
    case _ => false
  }

  /** Through includes alone, the entry leads to a leaf check that grants. */
  ghost predicate Grants(w: World, who: Identity, entry: string, default: DefaultScheme, file: string)
    requires Acyclic(w)
    decreases 3 * Height(w, Targets(w, entry, default, file)), 1
  {
    var c := Dispatch(entry, default);
    LeafGrants(w, who, c) || (c.FileCheck? && exists f :: f in Included(w, c.path, file) && GrantsIn(w, who, f))
  }

  ghost predicate GrantsIn(w: World, who: Identity, file: string)
    requires Acyclic(w)
    decreases 3 * w.rank(file) + 2, 0
  {
    && w.read(file).Some?
    && exists i :: 0 <= i < |w.read(file).value| && w.read(file).value[i].Entry? &&
                   Grants(w, who, w.read(file).value[i].entry, w.read(file).value[i].scheme, file)
  }

  lemma {:induction false} SuccessIsGrant(w: World, who: Identity, entry: string, default: DefaultScheme, file: string)
    requires Acyclic(w) && CheckEntry(w, who, entry, default, file).Success?
    ensures Grants(w, who, entry, default, file)
    decreases 3 * Height(w, Targets(w, entry, default, file)), 1, |entry|
  {
    var c := Dispatch(entry, default);
    if c.FileCheck? {
      var f := SuccessInFiles(w, who, FilesAt(w, c.path));
    }
  }

  lemma {:induction false} SuccessInFiles(w: World, who: Identity, files: seq<string>) returns (f: string)
    requires Acyclic(w) && Merge(w, who, files).Success?
    ensures f in files && GrantsIn(w, who, f)
    decreases 3 * Height(w, files), 0, |files|
  {
    f := files[0];
    if CheckFile(w, who, f).Success? {
      SuccessInLines(w, who, w.read(f).value, f);
    } else {
      f := SuccessInFiles(w, who, files[1..]);
    }
  }

  lemma {:induction false} SuccessInLines(w: World, who: Identity, lines: seq<Line>, file: string)
    requires Acyclic(w) && LinesBelow(w, lines, file) && CheckLines(w, who, lines, file).Success?
    ensures exists i :: 0 <= i < |lines| && lines[i].Entry? && Grants(w, who, lines[i].entry, lines[i].scheme, file)
    decreases 3 * w.rank(file) + 1, 0, |lines|
  {
    if lines[0].Entry? && CheckEntry(w, who, lines[0].entry, lines[0].scheme, file).Success? {
      SuccessIsGrant(w, who, lines[0].entry, lines[0].scheme, file);
    } else {
      SuccessInLines(w, who, lines[1..], file);
      var i :| 0 <= i < |lines[1..]| && lines[1..][i].Entry? &&
        Grants(w, who, lines[1..][i].entry, lines[1..][i].scheme, file);
      assert lines[i + 1] == lines[1..][i];
    }
  }

  /** A permit is decided by the first entry that says anything, and that entry grants. */
  lemma {:induction false} PermitRestsOnGrant(w: World, who: Identity, acls: seq<string>, file: string) returns (i: nat)
    requires Acyclic(w) && Permits(w, who, acls, file)
    ensures i < |acls| && Grants(w, who, acls[i], FileDefault, file)
    ensures CheckEntry(w, who, acls[i], FileDefault, file).Success?
    ensures forall j :: 0 <= j < i ==> CheckEntry(w, who, acls[j], FileDefault, file).NoMatch?
  {
    if CheckEntry(w, who, acls[0], FileDefault, file).Success? {
      SuccessIsGrant(w, who, acls[0], FileDefault, file);
      i := 0;
    } else {
      var k := PermitRestsOnGrant(w, who, acls[1..], file);
      i := k + 1;
      forall j | 0 <= j < i ensures CheckEntry(w, who, acls[j], FileDefault, file).NoMatch? {
        if j > 0 {
          assert acls[1..][j - 1] == acls[j];
        }
      }
    }
  }

  // A file that includes itself.

  /** The one cycle that the engine notices is an error. */
  lemma SelfIncludeIsError(w: World, who: Identity, default: DefaultScheme, file: string)
    requires Acyclic(w)
    ensures CheckEntry(w, who, "file:" + file, default, file) == Error
  {
    DispatchFile(file, default);
  }

  function SelfIncluding(file: string): World
  {
    World(
      path => Plain,
      path => if path == file then Some([Entry("file:" + file, PrincDefault)]) else None,
      (who, scheme, data) => NotGranted,
      path => 0)
  }

  /** Such files are among the worlds considered. */
  lemma SelfIncludingIsAcyclic(file: string, who: Identity)
    ensures Acyclic(SelfIncluding(file)) && CheckFile(SelfIncluding(file), who, file) == Error
  {
    var w := SelfIncluding(file);
    DispatchFile(file, PrincDefault);
    hide Dispatch;
    assert Targets(w, "file:" + file, PrincDefault, file) == [];
    SelfIncludeIsError(w, who, PrincDefault, file);
  }
}
