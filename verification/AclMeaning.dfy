/** What ACL entries, files, directories and lists mean, in plain terms. */
module AclMeaning {
  import opened Bytes
  import opened Acl

  // Entries.

  lemma SchemeSplit(scheme: string, data: string)
    requires ':' !in scheme
    ensures var s := scheme + ":" + data;
            Colon(s) == |scheme| && s[..|scheme|] == scheme && s[|scheme| + 1..] == data && ':' in s
  {
    ColonAfter(scheme, data);
    assert (scheme + ":" + data)[|scheme|] == ':';
  }

  lemma NoColonInAnyUser()
    ensures ':' !in "ANYUSER"
  {
  }

  lemma ColonFree(x: string)
    requires ':' !in x
    ensures Colon(x) == |x|
  {
  }

  lemma DispatchAnyUser(data: string, default: DefaultScheme)
    ensures Dispatch("anyuser:" + data, default) == AnyUserCheck(data)
  {
    NoColonInAnyUser();
    hide Colon;
    SchemeSplit("anyuser", data);
    assert "anyuser:" + data == "anyuser" + ":" + data;
  }

  lemma DispatchGput(data: string, default: DefaultScheme)
    ensures Dispatch("gput" + ":" + data, default) == ForeignCheck("gput", data)
  {
    NoColonInAnyUser();
    hide Colon;
    SchemeSplit("gput", data);
  }

  lemma DispatchLocalgroup(data: string, default: DefaultScheme)
    ensures Dispatch("localgroup" + ":" + data, default) == ForeignCheck("localgroup", data)
  {
    NoColonInAnyUser();
    hide Colon;
    SchemeSplit("localgroup", data);
  }

  lemma DispatchPcre(data: string, default: DefaultScheme)
    ensures Dispatch("pcre" + ":" + data, default) == ForeignCheck("pcre", data)
  {
    NoColonInAnyUser();
    hide Colon;
    SchemeSplit("pcre", data);
  }

  lemma DispatchRegex(data: string, default: DefaultScheme)
    ensures Dispatch("regex" + ":" + data, default) == ForeignCheck("regex", data)
  {
    NoColonInAnyUser();
    hide Colon;
    SchemeSplit("regex", data);
  }

  lemma DispatchForeign(scheme: string, data: string, default: DefaultScheme)
    requires scheme in {"gput", "localgroup", "pcre", "regex"}
    ensures Dispatch(scheme + ":" + data, default) == ForeignCheck(scheme, data)
  {
    hide Dispatch;
    if scheme == "gput" {
      DispatchGput(data, default);
    } else if scheme == "localgroup" {
      DispatchLocalgroup(data, default);
    } else if scheme == "pcre" {
      DispatchPcre(data, default);
    } else {
      DispatchRegex(data, default);
    }
  }

  /** An entry without a scheme: a path in the list of a rule or after an include, a principal in a file. */
  lemma BareEntry(w: World, who: Identity, x: string, default: DefaultScheme, file: string)
    requires Acyclic(w) && ':' !in x && x != "ANYUSER"
    ensures CheckEntry(w, who, x, FileDefault, file) == CheckEntry(w, who, "file:" + x, default, file)
    ensures CheckEntry(w, who, x, PrincDefault, file) == CheckEntry(w, who, "princ:" + x, default, file)
  {
    ColonFree(x);
    DispatchFile(x, default);
    DispatchPrinc(x, default);
    hide Colon;
    assert Dispatch(x, FileDefault) == FileCheck(x) && Dispatch(x, PrincDefault) == PrincCheck(x);
    hide Dispatch;
  }

  /** `princ:` names exactly the client's own principal. */
  lemma PrincEntry(w: World, who: Identity, user: string, default: DefaultScheme, file: string)
    requires Acyclic(w)
    ensures CheckEntry(w, who, "princ:" + user, default, file) == if user == who.user then Success else NoMatch
  {
    DispatchPrinc(user, default);
    hide Dispatch;
  }

  /**
   * ANYUSER is anyuser:auth, which every authenticated client matches; every client at all matches
   * anyuser:anonymous.
   */
  lemma AnyUserEntry(w: World, who: Identity, data: string, default: DefaultScheme, other: DefaultScheme, file: string)
    requires Acyclic(w)
    ensures CheckEntry(w, who, "ANYUSER", default, file) == CheckEntry(w, who, "anyuser:" + "auth", other, file)
    ensures CheckEntry(w, who, "anyuser:" + "auth", default, file) == if who.anonymous then NoMatch else Success
    ensures CheckEntry(w, who, "anyuser:" + "anonymous", default, file) == Success
    ensures data != "auth" && data != "anonymous" ==>
      CheckEntry(w, who, "anyuser:" + data, default, file) == Error
  {
    DispatchAnyUser("auth", default);
    DispatchAnyUser("auth", other);
    DispatchAnyUser("anonymous", default);
    DispatchAnyUser(data, default);
    assert Dispatch("ANYUSER", default) == AnyUserCheck("auth");
    hide Dispatch;
  }

  /** `deny:` refuses whom the rest of the entry matches, and otherwise says nothing unless there is an error. */
  lemma DenyEntry(w: World, who: Identity, x: string, default: DefaultScheme, file: string)
    requires Acyclic(w)
    ensures var inner, s := CheckEntry(w, who, x, PrincDefault, file), CheckEntry(w, who, "deny:" + x, default, file);
            && (s == Deny <==> inner == Success) && (s == Error <==> inner == Error)
            && (s == NoMatch <==> inner == NoMatch || inner == Deny)
  {
    DispatchDeny(x, default);
    hide Dispatch;
  }

  /** The foreign checks: granted, not granted, failed. */
  lemma ForeignEntry(w: World, who: Identity, scheme: string, data: string, default: DefaultScheme, file: string)
    requires Acyclic(w) && scheme in {"gput", "localgroup", "pcre", "regex"}
    ensures var s, leaf := CheckEntry(w, who, scheme + ":" + data, default, file), w.foreign(who, scheme, data);
            && (s == Success <==> leaf == Granted) && (s == NoMatch <==> leaf == NotGranted)
            && (s == Error <==> leaf == Failed)
  {
    DispatchForeign(scheme, data, default);
    hide Dispatch;
  }

  lemma DispatchUnknown(scheme: string, data: string, default: DefaultScheme)
    requires ':' !in scheme
    requires scheme !in {"file", "princ", "anyuser", "deny", "gput", "localgroup", "pcre", "regex"}
    ensures Dispatch(scheme + ":" + data, default) == InvalidCheck
  {
    NoColonInAnyUser();
    hide Colon;
    SchemeSplit(scheme, data);
  }

  lemma UnknownEntry(w: World, who: Identity, scheme: string, data: string, default: DefaultScheme, file: string)
    requires Acyclic(w) && ':' !in scheme
    requires scheme !in {"file", "princ", "anyuser", "deny", "gput", "localgroup", "pcre", "regex"}
    ensures CheckEntry(w, who, scheme + ":" + data, default, file) == Error
  {
    DispatchUnknown(scheme, data, default);
    hide Dispatch;
  }

  // Included paths.

  predicate IsRefusal(s: Status)
  {
    s == Error || s == Deny
  }

  /** The first refusal stands at place i. */
  predicate FirstRefusal(results: seq<Status>, i: int)
  {
    0 <= i < |results| && IsRefusal(results[i]) && forall j :: 0 <= j < i ==> !IsRefusal(results[j])
  }

  predicate NoRefusal(results: seq<Status>)
  {
    forall j :: 0 <= j < |results| ==> !IsRefusal(results[j])
  }

  /** The result of files: the first refusal, otherwise success if there is one. */
  ghost predicate IsResult(results: seq<Status>, s: Status)
  {
    if NoRefusal(results) then s == if Success in results then Success else NoMatch
    else exists i :: FirstRefusal(results, i) && s == results[i]
  }

  ghost function Results(w: World, who: Identity, files: seq<string>): (results: seq<Status>)
    requires Acyclic(w)
    ensures |results| == |files|
  {
    seq(|files|, i requires 0 <= i < |files| => CheckFile(w, who, files[i]))
  }

  lemma {:induction false} MergeIsResult(w: World, who: Identity, files: seq<string>)
    requires Acyclic(w)
    ensures IsResult(Results(w, who, files), Merge(w, who, files))
  {
    if files != [] {
      hide CheckFile, IsResult;
      MergeIsResult(w, who, files[1..]);
      var first, later := CheckFile(w, who, files[0]), Results(w, who, files[1..]);
      assert Results(w, who, files) == [first] + later;
      ResultStep(first, later, Merge(w, who, files[1..]));
    }
  }

  lemma ResultStep(first: Status, later: seq<Status>, s: Status)
    requires IsResult(later, s)
    ensures IsResult([first] + later, if IsRefusal(first) then first else if s == NoMatch then first else s)
  {
    var results := [first] + later;
    if IsRefusal(first) {
      assert FirstRefusal(results, 0);
    } else if NoRefusal(later) {
      ShiftNone(first, later);
    } else {
      hide FirstRefusal;
      var i :| FirstRefusal(later, i) && s == later[i];
      ShiftRefusal(first, later, i);
    }
  }

  lemma ShiftRefusal(first: Status, later: seq<Status>, i: int)
    requires !IsRefusal(first) && FirstRefusal(later, i)
    ensures 0 <= i < |later| && IsRefusal(later[i]) && ([first] + later)[i + 1] == later[i]
    ensures FirstRefusal([first] + later, i + 1) && !NoRefusal([first] + later)
  {
    assert forall j :: 0 < j <= |later| ==> ([first] + later)[j] == later[j - 1];
  }

  lemma ShiftNone(first: Status, later: seq<Status>)
    requires !IsRefusal(first) && NoRefusal(later)
    ensures NoRefusal([first] + later)
    ensures Success in [first] + later <==> first == Success || Success in later
  {
  }

  /** Letters, digits, underscore and hyphen. */
  predicate FileCharacter(c: char)
  {
    || c in "ABCDEFGHIJKLM" + "NOPQRSTUVWXYZ"
    || c in "abcdefghijklm" + "nopqrstuvwxyz"
    || c in "0123456789"
    || c == '_' || c == '-'
  }

  lemma UpperCase(c: char)
    ensures 'A' <= c <= 'Z' <==> c in "ABCDEFGHIJKLM" + "NOPQRSTUVWXYZ"
  {
    assert 'A' <= c <= 'M' <==> c in "ABCDEFGHIJKLM";
    assert 'N' <= c <= 'Z' <==> c in "NOPQRSTUVWXYZ";
  }

  lemma LowerCase(c: char)
    ensures 'a' <= c <= 'z' <==> c in "abcdefghijklm" + "nopqrstuvwxyz"
  {
    assert 'a' <= c <= 'm' <==> c in "abcdefghijklm";
    assert 'n' <= c <= 'z' <==> c in "nopqrstuvwxyz";
  }

  lemma Digits(c: char)
    ensures '0' <= c <= '9' <==> c in "0123456789"
  {
  }

  lemma FileCharacters(c: char)
    ensures ValidChar(c) <==> FileCharacter(c)
  {
    UpperCase(c);
    LowerCase(c);
    Digits(c);
  }

  /** The members of a directory are the names made of file characters. */
  lemma DirectoryMembers(path: string, names: seq<string>, name: string)
    requires name in names
    ensures path + "/" + name in Members(path, names) <==> forall i :: 0 <= i < |name| ==> FileCharacter(name[i])
  {
    forall i | 0 <= i < |name| ensures ValidChar(name[i]) <==> FileCharacter(name[i]) {
      FileCharacters(name[i]);
    }
    hide ValidChar, FileCharacter;
    var f := path + "/" + name;
    if f in Members(path, names) {
      var other :| other in names && ValidFilename(other) && f == path + "/" + other;
      assert f[|path| + 1..] == name && (path + "/" + other)[|path| + 1..] == other;
    }
  }

  /** The members come in the order of the listing. */
  lemma {:induction false} MembersInOrder(path: string, names: seq<string>, more: seq<string>)
    ensures Members(path, names + more) == Members(path, names) + Members(path, more)
  {
    if names == [] {
      assert names + more == more;
    } else {
      MembersInOrder(path, names[1..], more);
      assert (names + more)[1..] == names[1..] + more;
    }
  }

  /** What including a path comes to: an error, one file, or the members of a directory in their order. */
  lemma IncludeMeaning(w: World, who: Identity, path: string, default: DefaultScheme, file: string)
    requires Acyclic(w)
    ensures var s := CheckEntry(w, who, "file:" + path, default, file);
            if path == file then s == Error
            else match w.stat(path)
                 case Missing => s == Error
                 case Plain => s == CheckFile(w, who, path)
                 case Directory(names) =>
                   if names.None? then s == Error else IsResult(Results(w, who, Members(path, names.value)), s)
  {
    DispatchFile(path, default);
    hide Dispatch, CheckFile;
    assert CheckEntry(w, who, "file:" + path, default, file) == Include(w, who, path, file);
    if path != file && w.stat(path).Plain? {
      assert [path][1..] == [] && Merge(w, who, []) == NoMatch;
    }
    MergeIsResult(w, who, FilesAt(w, path));
  }

  // Files and lists.

  /** What one line of a file says. */
  ghost function LineStatus(w: World, who: Identity, line: Line, file: string): Status
    requires Acyclic(w)
  {
    match line
    case Blank => NoMatch
    case ParseError => Error
    case Entry(entry, scheme) => CheckEntry(w, who, entry, scheme, file)
  }

  /** A file says what its first line says that says anything; it is an error if it cannot be read. */
  lemma FileMeaning(w: World, who: Identity, file: string)
    requires Acyclic(w)
    ensures var s := CheckFile(w, who, file);
            match w.read(file)
            case None => s == Error
            case Some(lines) =>
              if forall i :: 0 <= i < |lines| ==> LineStatus(w, who, lines[i], file) == NoMatch then s == NoMatch
              else exists i :: 0 <= i < |lines| && LineStatus(w, who, lines[i], file) == s != NoMatch &&
                               forall j :: 0 <= j < i ==> LineStatus(w, who, lines[j], file) == NoMatch
  {
    if w.read(file).Some? {
      var lines := w.read(file).value;
      assert LinesBelow(w, lines, file);
      LinesMeaning(w, who, lines, file);
    }
  }

  lemma {:induction false} LinesMeaning(w: World, who: Identity, lines: seq<Line>, file: string)
    requires Acyclic(w) && LinesBelow(w, lines, file)
    ensures var s := CheckLines(w, who, lines, file);
            if forall i :: 0 <= i < |lines| ==> LineStatus(w, who, lines[i], file) == NoMatch then s == NoMatch
            else exists i :: 0 <= i < |lines| && LineStatus(w, who, lines[i], file) == s != NoMatch &&
                             forall j :: 0 <= j < i ==> LineStatus(w, who, lines[j], file) == NoMatch
  {
    hide CheckEntry;
    if lines != [] {
      var first, more := LineStatus(w, who, lines[0], file), lines[1..];
      LinesMeaning(w, who, more, file);
      assert forall i :: 0 <= i < |more| ==> more[i] == lines[i + 1];
      if first == NoMatch {
        assert CheckLines(w, who, lines, file) == CheckLines(w, who, more, file);
        if i: nat :| i < |more| && LineStatus(w, who, more[i], file) != NoMatch {
          var k :| 0 <= k < |more| && LineStatus(w, who, more[k], file) == CheckLines(w, who, more, file) != NoMatch
            && forall j :: 0 <= j < k ==> LineStatus(w, who, more[j], file) == NoMatch;
          assert lines[k + 1] == more[k] && lines[i + 1] == more[i];
          assert forall j :: 1 <= j < k + 1 ==> lines[j] == more[j - 1];
        } else {
          assert forall j :: 1 <= j < |lines| ==> lines[j] == more[j - 1];
        }
      } else {
        assert CheckLines(w, who, lines, file) == first;
      }
    }
  }

  /** A client is permitted exactly if some entry of the list grants and all entries before it say nothing. */
  lemma {:induction false} PermitMeaning(w: World, who: Identity, acls: seq<string>, file: string)
    requires Acyclic(w)
    ensures Permits(w, who, acls, file) <==>
      exists i :: 0 <= i < |acls| && CheckEntry(w, who, acls[i], FileDefault, file) == Success &&
                  forall j :: 0 <= j < i ==> CheckEntry(w, who, acls[j], FileDefault, file) == NoMatch
  {
    hide CheckEntry;
    if acls != [] {
      var more := acls[1..];
      PermitMeaning(w, who, more, file);
      assert forall i :: 0 <= i < |more| ==> more[i] == acls[i + 1];
      if CheckEntry(w, who, acls[0], FileDefault, file) == NoMatch {
        if i: nat :| i < |more| && CheckEntry(w, who, more[i], FileDefault, file) == Success &&
                     forall j :: 0 <= j < i ==> CheckEntry(w, who, more[j], FileDefault, file) == NoMatch {
          assert acls[i + 1] == more[i] && forall j :: 1 <= j < i + 1 ==> acls[j] == more[j - 1];
        }
        if i: nat :| i < |acls| && CheckEntry(w, who, acls[i], FileDefault, file) == Success &&
                     forall j :: 0 <= j < i ==> CheckEntry(w, who, acls[j], FileDefault, file) == NoMatch {
          assert more[i - 1] == acls[i] && forall j :: 0 <= j < i - 1 ==> more[j] == acls[j + 1];
        }
      }
    }
  }
}
