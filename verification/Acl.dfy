/**
 * The ACL engine (server/config.c).  An ACL entry names a scheme and its data; `file:` includes a file
 * or every file of a directory, `deny:` turns a match into a refusal.  The functions say what each
 * check returns; the methods are the loops of the program, proved to return it.
 */
module Acl {
  import opened Bytes

  datatype Status = Success | NoMatch | Error | Deny
  {
    /** `status < -1`: processing stops. */
    predicate Stops() {
      Error? || Deny?
    }
  }

  datatype DefaultScheme = FileDefault | PrincDefault

  /** One line of an ACL file, as acl_check_file_internal reads it. */
  datatype Line = Blank | ParseError | Entry(entry: string, scheme: DefaultScheme)

  /** What `stat` and `opendir` say of a path; the names come in the order of `readdir`. */
  datatype Kind = Missing | Plain | Directory(names: Option<seq<string>>)

  datatype Identity = Identity(user: string, anonymous: bool)

  datatype Leaf = Granted | NotGranted | Failed

  /**
   * The file system and the foreign checks (gput, localgroup, pcre, regex).  `read` is the content of a
   * path opened as a file, if that is possible.  `rank` is only there to say that includes are acyclic.
   */
  datatype World = World(
    stat: string -> Kind,
    read: string -> Option<seq<Line>>,
    foreign: (Identity, string, string) -> Leaf,
    rank: string -> nat)

  datatype Check =
    | FileCheck(path: string)
    | PrincCheck(user: string)
    | AnyUserCheck(data: string)
    | DenyCheck(entry: string)
    | ForeignCheck(scheme: string, data: string)
    | InvalidCheck

  /** The position of the first colon, or the length if there is none. */
  function Colon(s: string): (i: nat)
    ensures i <= |s| && ':' !in s[..i] && (i < |s| ==> s[i] == ':')
  {
    if s == [] || s[0] == ':' then 0 else 1 + Colon(s[1..])
  }

  lemma {:induction false} ColonAfter(prefix: string, data: string)
    requires ':' !in prefix
    ensures Colon(prefix + ":" + data) == |prefix|
  {
    var s := prefix + ":" + data;
    if prefix != "" {
      assert s[1..] == prefix[1..] + ":" + data;
      ColonAfter(prefix[1..], data);
    }
  }

  /** The dispatch of `acl_check`; ANYUSER stands for anyuser:auth. */
  function Dispatch(entry: string, default: DefaultScheme): (c: Check)
    ensures c.DenyCheck? ==> |c.entry| < |entry|
  {
    if entry == "ANYUSER" then
      AnyUserCheck("auth")
    else
      var i := Colon(entry);
      if i == |entry| then
        if default.FileDefault? then FileCheck(entry) else PrincCheck(entry)
      else
        var scheme, data := entry[..i], entry[i + 1..];
        if scheme == "file" then FileCheck(data)
        else if scheme == "princ" then PrincCheck(data)
        else if scheme == "anyuser" then AnyUserCheck(data)
        else if scheme == "deny" then DenyCheck(data)
        else if scheme in {"gput", "localgroup", "pcre", "regex"} then ForeignCheck(scheme, data)
        else InvalidCheck
  }

  lemma DispatchDeny(x: string, default: DefaultScheme)
    ensures Dispatch("deny:" + x, default) == DenyCheck(x)
  {
    ColonAfter("deny", x);
    var s := "deny:" + x;
    assert s == "deny" + ":" + x;
    assert s[..4] == "deny" && s[5..] == x;
  }

  lemma DispatchFile(path: string, default: DefaultScheme)
    ensures Dispatch("file:" + path, default) == FileCheck(path)
  {
    ColonAfter("file", path);
    var s := "file:" + path;
    assert s == "file" + ":" + path;
    assert s[..4] == "file" && s[5..] == path;
  }

  lemma DispatchPrinc(user: string, default: DefaultScheme)
    ensures Dispatch("princ:" + user, default) == PrincCheck(user)
  {
    ColonAfter("princ", user);
    var s := "princ:" + user;
    assert s == "princ" + ":" + user;
    assert s[..5] == "princ" && s[6..] == user;
  }

  predicate ValidChar(c: char)
  {
    'A' <= c <= 'Z' || 'a' <= c <= 'z' || '0' <= c <= '9' || c == '_' || c == '-'
  }

  predicate ValidFilename(name: string)
  {
    forall i :: 0 <= i < |name| ==> ValidChar(name[i])
  }

  /** The files that including a directory includes, in order. */
  function Members(path: string, names: seq<string>): (files: seq<string>)
    ensures forall f :: f in files <==> exists name :: name in names && ValidFilename(name) && f == path + "/" + name
  {
    if names == [] then
      []
    else
      var rest := Members(path, names[1..]);
      if ValidFilename(names[0]) then [path + "/" + names[0]] + rest else rest
  }

  function FilesAt(w: World, path: string): (files: seq<string>)
  {
    match w.stat(path)
    case Missing => []
    case Plain => [path]
    case Directory(names) => if names.None? then [] else Members(path, names.value)
  }

  /** The files that including a path from a file reads: none if it is that file itself. */
  function Included(w: World, path: string, file: string): (files: seq<string>)
  {
    if path == file then [] else FilesAt(w, path)
  }

  /** The files an entry of a file reads. */
  function Targets(w: World, entry: string, default: DefaultScheme, file: string): (files: seq<string>)
    decreases |entry|
  {
    match Dispatch(entry, default)
    case FileCheck(path) => Included(w, path, file)
    case DenyCheck(inner) => Targets(w, inner, PrincDefault, file)
    case _ => []
  }

  function Height(w: World, files: seq<string>): (h: nat)
    ensures forall f :: f in files ==> w.rank(f) < h
  {
    if files == [] then
      0
    else
      var h := Height(w, files[1..]);
      if w.rank(files[0]) < h then h else w.rank(files[0]) + 1
  }

  /** Lines of a file that include only files of a lower rank. */
  predicate LinesBelow(w: World, lines: seq<Line>, file: string)
  {
    forall i :: 0 <= i < |lines| && lines[i].Entry? ==>
      Height(w, Targets(w, lines[i].entry, lines[i].scheme, file)) <= w.rank(file)
  }

  /** Every file has a higher rank than the other files its lines include; a file may include itself. */
  ghost predicate Acyclic(w: World)
  {
    forall f :: w.read(f).Some? ==> LinesBelow(w, w.read(f).value, f)
  }

  function OfLeaf(leaf: Leaf): Status
  {
    match leaf
    case Granted => Success
    case NotGranted => NoMatch
    case Failed => Error
  }

  function Negate(s: Status): Status
  {
    match s
    case Success => Deny
    case NoMatch => NoMatch
    case Deny => NoMatch
    case Error => Error
  }

  ghost function CheckEntry(w: World, who: Identity, entry: string, default: DefaultScheme, file: string): (s: Status)
    requires Acyclic(w)
    decreases 3 * Height(w, Targets(w, entry, default, file)), 1, |entry|
  {
    match Dispatch(entry, default)
    case FileCheck(path) => Include(w, who, path, file)
    case PrincCheck(user) => if who.user == user then Success else NoMatch
    case AnyUserCheck(data) =>
      if data == "auth" then
        if who.anonymous then NoMatch else Success
      else if data == "anonymous" then
        Success
      else
        Error
    case DenyCheck(inner) => Negate(CheckEntry(w, who, inner, PrincDefault, file))
    case ForeignCheck(scheme, data) => OfLeaf(w.foreign(who, scheme, data))
    case InvalidCheck => Error
  }

  /** `handle_include` applied to ACL files. */
  ghost function Include(w: World, who: Identity, path: string, file: string): (s: Status)
    requires Acyclic(w)
    decreases 3 * Height(w, Included(w, path, file)), 0, |Included(w, path, file)| + 1
  {
    if path == file || w.stat(path).Missing? || w.stat(path) == Directory(None) then
      Error
    else
      Merge(w, who, FilesAt(w, path))
  }

  /** The result of several files: the first that stops, otherwise the greatest. */
  ghost function Merge(w: World, who: Identity, files: seq<string>): (s: Status)
    requires Acyclic(w)
    decreases 3 * Height(w, files), 0, |files|
  {
    if files == [] then
      NoMatch
    else
      var first := CheckFile(w, who, files[0]);
      if first.Stops() then first else Join(first, Merge(w, who, files[1..]))
  }

  /** A running status joined with what the remaining files give. */
  function Join(status: Status, rest: Status): Status
  {
    if rest.NoMatch? then status else rest
  }

  ghost function CheckFile(w: World, who: Identity, file: string): (s: Status)
    requires Acyclic(w)
    decreases 3 * w.rank(file) + 2, 0, 0
  {
    if w.read(file).None? then Error else CheckLines(w, who, w.read(file).value, file)
  }

  /** The first result other than NoMatch. */
  ghost function CheckLines(w: World, who: Identity, lines: seq<Line>, file: string): (s: Status)
    requires Acyclic(w) && LinesBelow(w, lines, file)
    decreases 3 * w.rank(file) + 1, 0, |lines|
  {
    if lines == [] then
      NoMatch
    else
      match lines[0]
      case Blank => CheckLines(w, who, lines[1..], file)
      case ParseError => Error
      case Entry(entry, scheme) =>
        var s := CheckEntry(w, who, entry, scheme, file);
        if s.NoMatch? then CheckLines(w, who, lines[1..], file) else s
  }

  /** `server_config_acl_permit`, for the ACL list of a rule found in a configuration file. */
  ghost predicate Permits(w: World, who: Identity, acls: seq<string>, file: string)
    requires Acyclic(w)
  {
    acls != [] &&
    var s := CheckEntry(w, who, acls[0], FileDefault, file);
    s.Success? || (s.NoMatch? && Permits(w, who, acls[1..], file))
  }

  /** What the first entry says that says anything. */
  ghost function Decision(w: World, who: Identity, acls: seq<string>, file: string): (s: Status)
    requires Acyclic(w)
    ensures s.Success? <==> Permits(w, who, acls, file)
  {
    if acls == [] then
      NoMatch
    else
      var s := CheckEntry(w, who, acls[0], FileDefault, file);
      if s.NoMatch? then Decision(w, who, acls[1..], file) else s
  }

  // The program.

  method AclCheck(w: World, who: Identity, entry: string, default: DefaultScheme, file: string) returns (s: Status)
    requires Acyclic(w)
    ensures s == CheckEntry(w, who, entry, default, file)
    decreases 3 * Height(w, Targets(w, entry, default, file)), 1, |entry|
  {
    match Dispatch(entry, default) {
      case FileCheck(path) =>
        s := HandleInclude(w, who, path, file);
      case PrincCheck(user) =>
        s := if who.user == user then Success else NoMatch;
      case AnyUserCheck(data) =>
        if data == "auth" {
          s := if who.anonymous then NoMatch else Success;
        } else if data == "anonymous" {
          s := Success;
        } else {
          s := Error;
        }
      case DenyCheck(inner) =>
        s := AclCheck(w, who, inner, PrincDefault, file);
        s := Negate(s);
      case ForeignCheck(scheme, data) =>
        s := OfLeaf(w.foreign(who, scheme, data));
      case InvalidCheck =>
        s := Error;
    }
  }

  method HandleInclude(w: World, who: Identity, included: string, file: string) returns (status: Status)
    requires Acyclic(w)
    ensures status == Include(w, who, included, file)
    decreases 3 * Height(w, Included(w, included, file)), 0, |Included(w, included, file)| + 1
  {
    hide ValidFilename, CheckFile;
    if included == file {
      return Error;
    }
    match w.stat(included) {
      case Missing =>
        return Error;
      case Plain =>
        status := AclCheckFileInternal(w, who, included);
        assert Merge(w, who, []) == NoMatch;
        assert FilesAt(w, included)[1..] == [];
      case Directory(listing) =>
        if listing.None? {
          return Error;
        }
        var names, i := listing.value, 0;
        status := NoMatch;
        while i < |names|
          invariant 0 <= i <= |names| && !status.Stops()
          invariant forall f :: f in Members(included, names[i..]) ==> f in FilesAt(w, included)
          invariant Merge(w, who, FilesAt(w, included)) == Join(status, Merge(w, who, Members(included, names[i..])))
        {
          if ValidFilename(names[i]) {
            var last := AclCheckFileInternal(w, who, included + "/" + names[i]);
            if last.Stops() {
              return last;
            }
            if last.Success? {
              status := last;
            }
          }
          assert names[i..][1..] == names[i + 1..];
          i := i + 1;
        }
    }
  }

  method AclCheckFileInternal(w: World, who: Identity, aclfile: string) returns (s: Status)
    requires Acyclic(w)
    ensures s == CheckFile(w, who, aclfile)
    decreases 3 * w.rank(aclfile) + 2, 0, 0
  {
    var content := w.read(aclfile);
    if content.None? {
      return Error;
    }
    var lines, i := content.value, 0;
    while i < |lines|
      invariant 0 <= i <= |lines| && LinesBelow(w, lines[i..], aclfile)
      invariant CheckLines(w, who, lines, aclfile) == CheckLines(w, who, lines[i..], aclfile)
    {
      assert lines[i..][1..] == lines[i + 1..];
      match lines[i] {
        case Blank =>
        case ParseError =>
          return Error;
        case Entry(entry, scheme) =>
          assert lines[i..][0] == lines[i];
          s := AclCheck(w, who, entry, scheme, aclfile);
          if !s.NoMatch? {
            return;
          }
      }
      i := i + 1;
    }
    s := NoMatch;
  }

  method ServerConfigAclPermit(w: World, who: Identity, acls: seq<string>, file: string) returns (permitted: bool)
    requires Acyclic(w)
    ensures permitted == Permits(w, who, acls, file)
  {
    var i := 0;
    while i < |acls|
      invariant 0 <= i <= |acls|
      invariant Permits(w, who, acls, file) == Permits(w, who, acls[i..], file)
    {
      var status := AclCheck(w, who, acls[i], FileDefault, file);
      if status.Success? {
        return true;
      } else if status.Stops() {
        return false;
      }
      assert acls[i..][1..] == acls[i + 1..];
      i := i + 1;
    }
    permitted := false;
  }
}
