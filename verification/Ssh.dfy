/** Parsing the command line of an ssh client (server/server-ssh.c). */
module Ssh {
  import opened Bytes

  const BACKSLASH: byte := 0x5C
  const SINGLE: byte := 0x27
  const DOUBLE: byte := 0x22

  /** `isspace` in the C locale. */
  predicate IsSpace(c: byte)
  {
    c == 0x20 || 0x09 <= c <= 0x0D
  }

  predicate IsQuote(c: byte)
  {
    c == SINGLE || c == DOUBLE
  }

  datatype State = Separator | Arg | Quote(quote: byte)

  /** The state after a character that is not escaped. */
  function After(st: State, c: byte): State
  {
    match st
    case Separator => if IsSpace(c) then Separator else if IsQuote(c) then Quote(c) else Arg
    case Quote(q) => if c == q then Arg else st
    case Arg => if IsSpace(c) then Separator else if IsQuote(c) then Quote(c) else Arg
  }

  /** Whether the character belongs to the argument. */
  predicate Kept(st: State, c: byte)
  {
    if st.Quote? then c != st.quote else !IsSpace(c) && !IsQuote(c)
  }

  /** The rest of the line, read in a state, with the argument and the arguments collected so far. */
  function Scan(s: Data, st: State, arg: Data, args: seq<Data>): (r: Option<seq<Data>>)
    decreases |s|
  {
    if s == [] then
      if st.Quote? then None else if st.Arg? then Some(args + [arg]) else Some(args)
    else if s[0] == BACKSLASH && |s| > 1 then
      Scan(s[2..], if st.Separator? then Arg else st, arg + [s[1]], args)
    else if st.Arg? && IsSpace(s[0]) then
      Scan(s[1..], Separator, [], args + [arg])
    else
      Scan(s[1..], After(st, s[0]), if Kept(st, s[0]) then arg + [s[0]] else arg, args)
  }

  function Parse(command: Data): (r: Option<seq<Data>>)
  {
    Scan(command, Separator, [], [])
  }

  /** `server_ssh_parse_command`: the character loop over a C string. */
  method ServerSshParseCommand(command: Data) returns (argv: Option<seq<Data>>)
    requires 0 !in command
    ensures argv == Parse(command)
  {
    var args: seq<Data>, arg: Data := [], [];
    var state, quote: byte, p := Separator, 0, 0;
    assert command[0..] == command;
    while p < |command|
      invariant 0 <= p <= |command| && (state.Quote? ==> state.quote == quote)
      invariant Parse(command) == Scan(command[p..], state, arg, args)
    {
      ghost var rest := command[p..];
      var c := command[p];
      if c == BACKSLASH && p + 1 < |command| {
        assert rest[2..] == command[p + 2..];
        arg := arg + [command[p + 1]];
        if state.Separator? {
          state := Arg;
        }
        p := p + 2;
        continue;
      }
      assert rest[1..] == command[p + 1..];
      match state {
        case Separator =>
          if !IsSpace(c) {
            if IsQuote(c) {
              state, quote := Quote(c), c;
            } else {
              state, arg := Arg, arg + [c];
            }
          }
        case Quote(_) =>
          if c == quote {
            state := Arg;
          } else {
            arg := arg + [c];
          }
        case Arg =>
          if IsSpace(c) {
            args, arg, state := args + [arg], [], Separator;
          } else if IsQuote(c) {
            state, quote := Quote(c), c;
          } else {
            arg := arg + [c];
          }
      }
      p := p + 1;
    }
    if state.Quote? {
      return None;
    } else if state.Arg? {
      args := args + [arg];
    }
    return Some(args);
  }

  // Failure.

  /** The quote that is open at the end of a text, tracking nothing but quotes and escapes. */
  function OpenQuote(s: Data, quote: Option<byte>): (r: Option<byte>)
    decreases |s|
  {
    if s == [] then quote
    else if s[0] == BACKSLASH && |s| > 1 then OpenQuote(s[2..], quote)
    else if quote.Some? then OpenQuote(s[1..], if s[0] == quote.value then None else quote)
    else OpenQuote(s[1..], if IsQuote(s[0]) then Some(s[0]) else None)
  }

  lemma {:induction false} ScanFails(s: Data, st: State, arg: Data, args: seq<Data>)
    ensures Scan(s, st, arg, args).None? <==> OpenQuote(s, if st.Quote? then Some(st.quote) else None).Some?
    decreases |s|
  {
    if s != [] {
      if s[0] == BACKSLASH && |s| > 1 {
        ScanFails(s[2..], if st.Separator? then Arg else st, arg + [s[1]], args);
      } else if st.Arg? && IsSpace(s[0]) {
        ScanFails(s[1..], Separator, [], args + [arg]);
      } else {
        ScanFails(s[1..], After(st, s[0]), if Kept(st, s[0]) then arg + [s[0]] else arg, args);
      }
    }
  }

  /** Parsing fails exactly when the line ends inside an open quote. */
  lemma ParseFailsInOpenQuote(command: Data)
    ensures Parse(command).None? <==> OpenQuote(command, None).Some?
  {
    ScanFails(command, Separator, [], []);
  }

  // Quoting.

  function Escape(q: byte, a: Data): Data
  {
    if a == [] then []
    else (if a[0] == q || a[0] == BACKSLASH then [BACKSLASH, a[0]] else [a[0]]) + Escape(q, a[1..])
  }

  /** An argument, the quote character to write it with, and the white space before it. */
  datatype Item = Item(gap: Data, quote: byte, arg: Data)

  function Quoted(item: Item): Data
  {
    [item.quote] + Escape(item.quote, item.arg) + [item.quote]
  }

  predicate Blank(s: Data)
  {
    forall i :: 0 <= i < |s| ==> IsSpace(s[i])
  }

  predicate WellSpaced(items: seq<Item>)
  {
    forall i :: 0 <= i < |items| ==> Blank(items[i].gap) && IsQuote(items[i].quote) && (i > 0 ==> items[i].gap != [])
  }

  /** A command line: the quoted arguments, each after its gap, and white space at the end. */
  function CommandLine(items: seq<Item>, tail: Data): Data
  {
    if items == [] then tail else items[0].gap + (Quoted(items[0]) + CommandLine(items[1..], tail))
  }

  function Args(items: seq<Item>): seq<Data>
  {
    seq(|items|, i requires 0 <= i < |items| => items[i].arg)
  }

  /** White space before an argument disappears; after one it ends the argument. */
  lemma {:induction false} ScanBlank(gap: Data, s: Data, st: State, arg: Data, args: seq<Data>)
    requires Blank(gap) && (st.Separator? ==> arg == []) && !st.Quote?
    ensures st.Separator? || gap == [] ==> Scan(gap + s, st, arg, args) == Scan(s, st, arg, args)
    ensures st.Arg? && gap != [] ==> Scan(gap + s, st, arg, args) == Scan(s, Separator, [], args + [arg])
    decreases |gap|
  {
    var all := gap + s;
    if gap == [] {
      assert all == s;
    } else {
      assert all[0] == gap[0] && all[1..] == gap[1..] + s;
      if st.Arg? {
        ScanBlank(gap[1..], s, Separator, [], args + [arg]);
      } else {
        ScanBlank(gap[1..], s, Separator, [], args);
      }
    }
  }

  /** Inside a quote, an escaped text and the closing quote give back the text. */
  lemma {:induction false} ScanEscaped(q: byte, a: Data, s: Data, arg: Data, args: seq<Data>)
    requires IsQuote(q)
    ensures Scan(Escape(q, a) + ([q] + s), Quote(q), arg, args) == Scan(s, Arg, arg + a, args)
    decreases |a|
  {
    var all := Escape(q, a) + ([q] + s);
    if a == [] {
      assert all[0] == q && all[1..] == s && arg + [] == arg;
    } else {
      var more := Escape(q, a[1..]) + ([q] + s);
      assert arg + [a[0]] + a[1..] == arg + a;
      if a[0] == q || a[0] == BACKSLASH {
        assert all[0] == BACKSLASH && all[1] == a[0] && all[2..] == more;
      } else {
        assert all[0] == a[0] && all[1..] == more;
      }
      ScanEscaped(q, a[1..], s, arg + [a[0]], args);
    }
  }

  lemma ScanQuoted(item: Item, s: Data, args: seq<Data>)
    requires IsQuote(item.quote)
    ensures Scan(Quoted(item) + s, Separator, [], args) == Scan(s, Arg, item.arg, args)
  {
    var q := item.quote;
    var inner := Escape(q, item.arg) + ([q] + s);
    var all := Quoted(item) + s;
    assert all == [q] + inner;
    assert all[0] == q && all[1..] == inner;
    ScanEscaped(q, item.arg, s, [], args);
    assert [] + item.arg == item.arg;
  }

  lemma {:induction false} ScanLine(items: seq<Item>, tail: Data, arg: Data, args: seq<Data>)
    requires Blank(tail) && forall i :: 0 <= i < |items| ==>
      Blank(items[i].gap) && items[i].gap != [] && IsQuote(items[i].quote)
    ensures Scan(CommandLine(items, tail), Arg, arg, args) == Some(args + [arg] + Args(items))
    decreases |items|
  {
    hide Scan, Quoted;
    if items == [] {
      assert tail + [] == tail && args + [arg] + Args(items) == args + [arg];
      ScanBlank(tail, [], Arg, arg, args);
      ScanEnd(arg, args);
    } else {
      var rest := CommandLine(items[1..], tail);
      ScanBlank(items[0].gap, Quoted(items[0]) + rest, Arg, arg, args);
      ScanQuoted(items[0], rest, args + [arg]);
      ScanLine(items[1..], tail, items[0].arg, args + [arg]);
      assert Args(items) == [items[0].arg] + Args(items[1..]);
      assert args + [arg] + Args(items) == args + [arg] + [items[0].arg] + Args(items[1..]);
    }
  }

  lemma ScanEnd(arg: Data, args: seq<Data>)
    ensures Scan([], Arg, arg, args) == Some(args + [arg])
    ensures Scan([], Separator, [], args + [arg]) == Some(args + [arg])
    ensures Scan([], Separator, [], args) == Some(args)
  {
  }

  lemma {:induction false} EscapeWithoutNul(q: byte, a: Data)
    requires IsQuote(q) && 0 !in a
    ensures 0 !in Escape(q, a)
  {
    if a != [] {
      EscapeWithoutNul(q, a[1..]);
    }
  }

  /** Such a command line is a C string, if the arguments are. */
  lemma {:induction false} CommandLineWithoutNul(items: seq<Item>, tail: Data)
    requires WellSpaced(items) && Blank(tail) && forall i :: 0 <= i < |items| ==> 0 !in items[i].arg
    ensures 0 !in CommandLine(items, tail)
  {
    if items != [] {
      assert forall i :: 0 <= i < |items| - 1 ==> items[1..][i] == items[i + 1];
      CommandLineWithoutNul(items[1..], tail);
      EscapeWithoutNul(items[0].quote, items[0].arg);
    }
  }

  /** Arguments in either kind of quotes, separated by any white space, are parsed back, empty ones included. */
  lemma QuotingRoundTrip(items: seq<Item>, tail: Data)
    requires WellSpaced(items) && Blank(tail)
    ensures Parse(CommandLine(items, tail)) == Some(Args(items))
  {
    hide Scan, Quoted;
    if items == [] {
      assert tail + [] == tail;
      ScanBlank(tail, [], Separator, [], []);
      ScanEnd([], []);
    } else {
      var rest := CommandLine(items[1..], tail);
      ScanBlank(items[0].gap, Quoted(items[0]) + rest, Separator, [], []);
      ScanQuoted(items[0], rest, []);
      ScanLine(items[1..], tail, items[0].arg, []);
      assert Args(items) == [items[0].arg] + Args(items[1..]);
      assert [] + [items[0].arg] + Args(items[1..]) == Args(items);
    }
  }

  /** What the program makes of such a line. */
  method ParseQuoted(items: seq<Item>, tail: Data) returns (argv: Option<seq<Data>>)
    requires WellSpaced(items) && Blank(tail) && forall i :: 0 <= i < |items| ==> 0 !in items[i].arg
    ensures argv == Some(Args(items))
  {
    CommandLineWithoutNul(items, tail);
    QuotingRoundTrip(items, tail);
    argv := ServerSshParseCommand(CommandLine(items, tail));
  }

  // Words.

  /** White space of the C locale, quotes and the backslash. */
  predicate WhiteSpace(c: byte)
  {
    c == 9 || c == 10 || c == 11 || c == 12 || c == 13 || c == 32
  }

  predicate Special(c: byte)
  {
    WhiteSpace(c) || c == 0x22 || c == 0x27 || c == 0x5C
  }

  /** An octet inside quotes, written with a backslash before it or not. */
  datatype Mark = Mark(octet: byte, escaped: bool)

  /** A part of a word: a plain run, an octet after a backslash, or a text in quotes. */
  datatype Piece = Plain(text: Data) | Escaped(octet: byte) | InQuotes(quote: byte, marks: seq<Mark>)

  /** In quotes the quote itself and the backslash have to be escaped; every other octet may be. */
  predicate ValidPiece(p: Piece)
  {
    match p
    case Plain(text) => text != [] && forall i :: 0 <= i < |text| ==> !Special(text[i])
    case Escaped(octet) => true
    case InQuotes(quote, marks) =>
      && (quote == 0x22 || quote == 0x27)
      && forall i :: 0 <= i < |marks| ==> marks[i].escaped || (marks[i].octet != quote && marks[i].octet != 0x5C)
  }

  function WrittenMarks(marks: seq<Mark>): Data
  {
    if marks == [] then []
    else (if marks[0].escaped then [0x5C] else []) + [marks[0].octet] + WrittenMarks(marks[1..])
  }

  function Octets(marks: seq<Mark>): (d: Data)
    ensures |d| == |marks|
  {
    seq(|marks|, i requires 0 <= i < |marks| => marks[i].octet)
  }

  function Written(p: Piece): (d: Data)
    ensures ValidPiece(p) ==> d != []
  {
    match p
    case Plain(text) => text
    case Escaped(octet) => [0x5C, octet]
    case InQuotes(quote, marks) => [quote] + WrittenMarks(marks) + [quote]
  }

  function Content(p: Piece): Data
  {
    match p
    case Plain(text) => text
    case Escaped(octet) => [octet]
    case InQuotes(quote, marks) => Octets(marks)
  }

  function WrittenWord(word: seq<Piece>): Data
  {
    if word == [] then [] else Written(word[0]) + WrittenWord(word[1..])
  }

  function ContentOfWord(word: seq<Piece>): Data
  {
    if word == [] then [] else Content(word[0]) + ContentOfWord(word[1..])
  }

  /** A word and the white space before it. */
  datatype Spaced = Spaced(gap: Data, word: seq<Piece>)

  predicate AllWhite(s: Data)
  {
    forall i :: 0 <= i < |s| ==> WhiteSpace(s[i])
  }

  predicate ValidWord(w: Spaced)
  {
    AllWhite(w.gap) && w.word != [] && forall i :: 0 <= i < |w.word| ==> ValidPiece(w.word[i])
  }

  predicate ValidLine(words: seq<Spaced>)
  {
    forall i :: 0 <= i < |words| ==> ValidWord(words[i]) && (i > 0 ==> words[i].gap != [])
  }

  function Line(words: seq<Spaced>): Data
  {
    if words == [] then [] else words[0].gap + (WrittenWord(words[0].word) + Line(words[1..]))
  }

  function Contents(words: seq<Spaced>): (contents: seq<Data>)
    ensures |contents| == |words|
  {
    seq(|words|, i requires 0 <= i < |words| => ContentOfWord(words[i].word))
  }

  /** Anything but a quoted text that is still open: outside a word with nothing collected, or inside one. */
  predicate Outside(st: State, arg: Data)
  {
    if st.Separator? then arg == [] else st.Arg?
  }

  lemma {:induction false} ScanPlain(text: Data, s: Data, st: State, arg: Data, args: seq<Data>)
    requires ValidPiece(Plain(text)) && Outside(st, arg)
    ensures Scan(text + s, st, arg, args) == Scan(s, Arg, arg + text, args)
    decreases |text|
  {
    var all := text + s;
    assert all[0] == text[0] && all[1..] == text[1..] + s && !Special(text[0]);
    assert Scan(all, st, arg, args) == Scan(text[1..] + s, Arg, arg + [text[0]], args);
    if |text| > 1 {
      assert forall i :: 0 <= i < |text| - 1 ==> text[1..][i] == text[i + 1];
      ScanPlain(text[1..], s, Arg, arg + [text[0]], args);
      assert arg + [text[0]] + text[1..] == arg + text;
    } else {
      assert text == [text[0]] && text[1..] + s == s;
    }
  }

  lemma {:induction false} ScanMarks(quote: byte, marks: seq<Mark>, s: Data, arg: Data, args: seq<Data>)
    requires ValidPiece(InQuotes(quote, marks))
    ensures Scan(WrittenMarks(marks) + ([quote] + s), Quote(quote), arg, args)
         == Scan(s, Arg, arg + Octets(marks), args)
    decreases |marks|
  {
    var all := WrittenMarks(marks) + ([quote] + s);
    if marks == [] {
      assert all[0] == quote && all[1..] == s && arg + Octets(marks) == arg;
    } else {
      var octet, more := marks[0].octet, WrittenMarks(marks[1..]) + ([quote] + s);
      assert (arg + [octet]) + Octets(marks[1..]) == arg + Octets(marks);
      if marks[0].escaped {
        assert all[0] == BACKSLASH && all[1] == octet && all[2..] == more;
      } else {
        assert all[0] == octet && all[1..] == more;
      }
      assert forall i :: 0 <= i < |marks| - 1 ==> marks[1..][i] == marks[i + 1];
      ScanMarks(quote, marks[1..], s, arg + [octet], args);
    }
  }

  lemma ScanPiece(p: Piece, s: Data, st: State, arg: Data, args: seq<Data>)
    requires ValidPiece(p) && Outside(st, arg)
    ensures Scan(Written(p) + s, st, arg, args) == Scan(s, Arg, arg + Content(p), args)
  {
    match p {
      case Plain(text) =>
        ScanPlain(text, s, st, arg, args);
      case Escaped(octet) =>
        var all := [0x5C, octet] + s;
        assert all[0] == BACKSLASH && all[1] == octet && all[2..] == s;
      case InQuotes(quote, marks) =>
        var inner := WrittenMarks(marks) + ([quote] + s);
        assert Written(p) + s == [quote] + inner;
        assert ([quote] + inner)[1..] == inner;
        assert Scan([quote] + inner, st, arg, args) == Scan(inner, Quote(quote), arg, args);
        ScanMarks(quote, marks, s, arg, args);
    }
  }

  lemma {:induction false} ScanWord(word: seq<Piece>, s: Data, st: State, arg: Data, args: seq<Data>)
    requires word != [] && Outside(st, arg) && forall i :: 0 <= i < |word| ==> ValidPiece(word[i])
    ensures Scan(WrittenWord(word) + s, st, arg, args) == Scan(s, Arg, arg + ContentOfWord(word), args)
    decreases |word|
  {
    hide Scan, Written, Content;
    var later := WrittenWord(word[1..]) + s;
    assert WrittenWord(word) + s == Written(word[0]) + later;
    ScanPiece(word[0], later, st, arg, args);
    if |word| > 1 {
      ScanWord(word[1..], s, Arg, arg + Content(word[0]), args);
      ConcatAssociative(arg, Content(word[0]), ContentOfWord(word[1..]));
    } else {
      assert word[1..] == [] && later == s && Content(word[0]) + [] == Content(word[0]);
    }
  }

  lemma WhiteIsBlank(s: Data)
    requires AllWhite(s)
    ensures Blank(s)
  {
  }

  /** Words on a line, from outside a word or behind one. */
  lemma {:induction false} ScanWords(words: seq<Spaced>, st: State, arg: Data, args: seq<Data>, rest: Data)
    requires words != [] && ValidLine(words) && Outside(st, arg) && (st.Arg? ==> words[0].gap != [])
    ensures var all := (if st.Arg? then args + [arg] else args) + Contents(words);
            Scan(Line(words) + rest, st, arg, args) == Scan(rest, Arg, all[|all| - 1], all[..|all| - 1])
    decreases |words|
  {
    hide Scan, WrittenWord, ContentOfWord;
    var w, more := words[0], words[1..];
    var before := if st.Arg? then args + [arg] else args;
    var line := Line(more) + rest;
    assert Line(words) + rest == w.gap + (WrittenWord(w.word) + line);
    ScanGap(w.word, line, st, arg, args, w.gap);
    ScanWord(w.word, line, Separator, [], before);
    assert [] + ContentOfWord(w.word) == ContentOfWord(w.word);
    var all := before + Contents(words);
    assert Contents(words) == [ContentOfWord(w.word)] + Contents(more);
    if more == [] {
      assert line == rest && all == before + [ContentOfWord(w.word)];
      assert all[..|all| - 1] == before;
    } else {
      assert forall i :: 0 <= i < |more| ==> more[i] == words[i + 1];
      ScanWords(more, Arg, ContentOfWord(w.word), before, rest);
      assert (before + [ContentOfWord(w.word)]) + Contents(more) == all;
    }
  }

  lemma ScanGap(word: seq<Piece>, line: Data, st: State, arg: Data, args: seq<Data>, gap: Data)
    requires Outside(st, arg) && AllWhite(gap) && (st.Arg? ==> gap != [])
    ensures Scan(gap + (WrittenWord(word) + line), st, arg, args) ==
            Scan(WrittenWord(word) + line, Separator, [], if st.Arg? then args + [arg] else args)
  {
    hide Scan;
    WhiteIsBlank(gap);
    ScanBlank(gap, WrittenWord(word) + line, st, arg, args);
  }

  /** How a line ends: with white space, or with white space and a lone backslash. */
  function Ending(tail: Data, lone: bool): Data
  {
    tail + if lone then [0x5C] else []
  }

  /** The arguments of a line: a backslash at the very end stands for itself. */
  function ArgumentsOf(words: seq<Spaced>, tail: Data, lone: bool): seq<Data>
  {
    var all := Contents(words);
    if !lone then all
    else if tail == [] && all != [] then all[..|all| - 1] + [all[|all| - 1] + [0x5C]]
    else all + [[0x5C]]
  }

  lemma ScanEnding(tail: Data, lone: bool, st: State, arg: Data, args: seq<Data>)
    requires AllWhite(tail) && Outside(st, arg)
    ensures Scan(Ending(tail, lone), st, arg, args) == Some(
      if !lone then if st.Arg? then args + [arg] else args
      else if tail == [] && st.Arg? then args + [arg + [0x5C]]
      else (if st.Arg? then args + [arg] else args) + [[0x5C]])
  {
    WhiteIsBlank(tail);
    if lone {
      ScanBlank(tail, [0x5C], st, arg, args);
      LoneBackslash(arg, args);
      LoneBackslash([], if st.Arg? then args + [arg] else args);
      assert [] + [0x5C] == [0x5C];
    } else {
      ScanBlank(tail, [], st, arg, args);
      assert tail + [] == tail;
      ScanEnd(arg, args);
    }
  }

  lemma LoneBackslash(arg: Data, args: seq<Data>)
    ensures Scan([0x5C], Arg, arg, args) == Some(args + [arg + [0x5C]])
    ensures Scan([0x5C], Separator, [], args) == Some(args + [[] + [0x5C]])
  {
    var s: Data := [0x5C];
    assert s[1..] == [];
  }

  /**
   * A line of words, each of plain runs, escaped octets and quoted texts in any order, is parsed to the
   * contents of its words; a lone backslash at the end of the line is kept.
   */
  lemma WordsRoundTrip(words: seq<Spaced>, tail: Data, lone: bool)
    requires ValidLine(words) && AllWhite(tail)
    ensures Parse(Line(words) + Ending(tail, lone)) == Some(ArgumentsOf(words, tail, lone))
  {
    var ending, all := Ending(tail, lone), Contents(words);
    if words == [] {
      assert Line(words) + ending == ending;
      hide Scan, Line, Ending;
      ScanEnding(tail, lone, Separator, [], []);
      assert [] + [[0x5C]] == all + [[0x5C]];
    } else {
      hide Scan, Line, Ending, Contents, AllWhite, ValidLine;
      var init, last := all[..|all| - 1], all[|all| - 1];
      assert init + [last] == all && [] + all == all;
      ScanWords(words, Separator, [], [], ending);
      ScanEnding(tail, lone, Arg, last, init);
    }
  }

  /** The program's own parser on such a line, if it is a C string. */
  method ParseWords(words: seq<Spaced>, tail: Data, lone: bool) returns (argv: Option<seq<Data>>)
    requires ValidLine(words) && AllWhite(tail) && 0 !in Line(words) + Ending(tail, lone)
    ensures argv == Some(ArgumentsOf(words, tail, lone))
  {
    WordsRoundTrip(words, tail, lone);
    argv := ServerSshParseCommand(Line(words) + Ending(tail, lone));
  }

  // Every line.

  /** What is left of a line behind a part of a word: pieces of that word, further words, and the end. */
  datatype Rest = Rest(pieces: seq<Piece>, words: seq<Spaced>, tail: Data, lone: bool)

  predicate ValidRest(r: Rest)
  {
    && (forall i :: 0 <= i < |r.pieces| ==> ValidPiece(r.pieces[i]))
    && ValidLine(r.words) && AllWhite(r.tail)
  }

  function WrittenRest(r: Rest): Data
  {
    WrittenWord(r.pieces) + (Line(r.words) + Ending(r.tail, r.lone))
  }

  /** Another piece in front. */
  lemma AddPiece(p: Piece, r: Rest) returns (longer: Rest)
    requires ValidPiece(p) && ValidRest(r) && (r.words != [] ==> r.words[0].gap != [])
    ensures ValidRest(longer) && WrittenRest(longer) == Written(p) + WrittenRest(r)
    ensures longer.words == r.words && longer.pieces != []
  {
    longer := r.(pieces := [p] + r.pieces);
    ConcatAssociative(Written(p), WrittenWord(r.pieces), Line(r.words) + Ending(r.tail, r.lone));
  }

  /** The pieces become a word of their own. */
  lemma StartWord(r: Rest) returns (words: seq<Spaced>)
    requires ValidRest(r) && r.pieces != [] && (r.words != [] ==> r.words[0].gap != [])
    ensures words != [] && words[0].gap == [] && ValidLine(words)
    ensures Line(words) + Ending(r.tail, r.lone) == WrittenRest(r)
  {
    words := [Spaced([], r.pieces)] + r.words;
    var line := WrittenWord(r.pieces) + Line(r.words);
    assert words[1..] == r.words && [] + line == line;
    ConcatAssociative(WrittenWord(r.pieces), Line(r.words), Ending(r.tail, r.lone));
  }

  lemma FirstGap(c: byte, w: Spaced, more: seq<Spaced>)
    requires WhiteSpace(c) && ValidLine([w] + more)
    ensures ValidLine([w.(gap := [c] + w.gap)] + more)
    ensures Line([w.(gap := [c] + w.gap)] + more) == [c] + Line([w] + more)
  {
    var longer := w.(gap := [c] + w.gap);
    assert ([longer] + more)[1..] == more && ([w] + more)[1..] == more;
    ConcatAssociative([c], w.gap, WrittenWord(w.word) + Line(more));
    assert forall i :: 1 <= i < |[w] + more| ==> ([longer] + more)[i] == ([w] + more)[i];
    assert ValidWord(([w] + more)[0]);
  }

  lemma LongerTail(c: byte, tail: Data, lone: bool)
    requires WhiteSpace(c) && AllWhite(tail)
    ensures AllWhite([c] + tail) && Ending([c] + tail, lone) == [c] + Ending(tail, lone)
  {
  }

  /** White space in front of words. */
  lemma AddSpace(c: byte, words: seq<Spaced>, tail: Data, lone: bool) returns (more: seq<Spaced>, longer: Data)
    requires WhiteSpace(c) && ValidLine(words) && AllWhite(tail)
    ensures ValidLine(more) && AllWhite(longer) && (more != [] ==> more[0].gap != [])
    ensures Line(more) + Ending(longer, lone) == [c] + (Line(words) + Ending(tail, lone))
  {
    if words == [] {
      more, longer := [], [c] + tail;
      LongerTail(c, tail, lone);
      hide Ending;
      assert Line([]) == [] && [] + Ending(longer, lone) == Ending(longer, lone);
      assert [] + Ending(tail, lone) == Ending(tail, lone);
    } else {
      hide Line, ValidLine, Ending;
      assert words == [words[0]] + words[1..];
      FirstGap(c, words[0], words[1..]);
      more, longer := [words[0].(gap := [c] + words[0].gap)] + words[1..], tail;
      ConcatAssociative([c], Line(words), Ending(tail, lone));
    }
  }

  /** What the first octet does to the open quote. */
  lemma OpenQuoteStep(s: Data, quote: Option<byte>)
    ensures OpenQuote([], quote) == quote
    ensures s != [] ==>
      (OpenQuote(s, quote) ==
       if s[0] == 0x5C && |s| > 1 then OpenQuote(s[2..], quote)
       else if quote.Some? then OpenQuote(s[1..], if s[0] == quote.value then None else quote)
       else OpenQuote(s[1..], if s[0] == 0x22 || s[0] == 0x27 then Some(s[0]) else None))
  {
  }

  lemma NoWords()
    ensures ValidLine([]) && Line([]) == [] && WrittenWord([]) == [] && AllWhite([])
    ensures WrittenRest(Rest([], [], [], false)) == [] && WrittenRest(Rest([], [], [], true)) == [0x5C]
  {
  }

  lemma OnlyWords(words: seq<Spaced>, tail: Data, lone: bool)
    ensures WrittenRest(Rest([], words, tail, lone)) == Line(words) + Ending(tail, lone)
  {
    assert [] + (Line(words) + Ending(tail, lone)) == Line(words) + Ending(tail, lone);
  }

  lemma {:induction false} FromOutside(s: Data) returns (words: seq<Spaced>, tail: Data, lone: bool)
    requires OpenQuote(s, None).None?
    ensures ValidLine(words) && AllWhite(tail) && s == Line(words) + Ending(tail, lone)
    decreases |s|, 1
  {
    hide WrittenWord, Line, ValidPiece, OpenQuote, WrittenRest, ValidLine, Ending;
    NoWords();
    OpenQuoteStep(s, None);
    if s == [] || s == [0x5C] {
      words, tail, lone := [], [], s != [];
      OnlyWords([], [], lone);
    } else if WhiteSpace(s[0]) {
      var more, white;
      more, white, lone := FromOutside(s[1..]);
      words, tail := AddSpace(s[0], more, white, lone);
    } else {
      var r := FromWord(s);
      words := StartWord(r);
      tail, lone := r.tail, r.lone;
    }
  }

  /** Inside a word, or where one begins. */
  lemma {:induction false} FromWord(s: Data) returns (r: Rest)
    requires OpenQuote(s, None).None?
    ensures ValidRest(r) && s == WrittenRest(r) && (r.words != [] ==> r.words[0].gap != [])
    ensures s != [] && !WhiteSpace(s[0]) && s != [0x5C] ==> r.pieces != []
    decreases |s|, 0
  {
    hide WrittenWord, Line, OpenQuote, WrittenRest, ValidLine, Ending;
    NoWords();
    OpenQuoteStep(s, None);
    if s == [] || s == [0x5C] {
      r := Rest([], [], [], s != []);
    } else if WhiteSpace(s[0]) {
      var more, white, lone := FromOutside(s[1..]);
      var words, tail := AddSpace(s[0], more, white, lone);
      OnlyWords(words, tail, lone);
      r := Rest([], words, tail, lone);
    } else if s[0] == 0x5C {
      var later := FromWord(s[2..]);
      r := AddPiece(Escaped(s[1]), later);
      assert s == [0x5C, s[1]] + s[2..];
    } else if s[0] == 0x22 || s[0] == 0x27 {
      var marks, later := FromQuote(s[1..], s[0]);
      r := QuotedWord(s, marks, later);
    } else {
      var later := FromWord(s[1..]);
      r := AddPiece(Plain([s[0]]), later);
      assert s == [s[0]] + s[1..];
    }
  }

  lemma QuotedWord(s: Data, marks: seq<Mark>, later: Rest) returns (r: Rest)
    requires s != [] && ValidPiece(InQuotes(s[0], marks)) && ValidRest(later)
    requires later.words != [] ==> later.words[0].gap != []
    requires s[1..] == WrittenMarks(marks) + ([s[0]] + WrittenRest(later))
    ensures ValidRest(r) && s == WrittenRest(r) && (r.words != [] ==> r.words[0].gap != []) && r.pieces != []
  {
    hide WrittenWord, Line, WrittenRest, ValidLine, Ending, WrittenMarks, ValidPiece, ValidRest;
    r := AddPiece(InQuotes(s[0], marks), later);
    assert s == [s[0]] + s[1..];
    ConcatAssociative([s[0]], WrittenMarks(marks), [s[0]] + WrittenRest(later));
    ConcatAssociative([s[0]] + WrittenMarks(marks), [s[0]], WrittenRest(later));
  }

  lemma EscapeGoesOn(s: Data, quote: byte)
    requires (quote == 0x22 || quote == 0x27) && OpenQuote(s, Some(quote)).None?
    ensures s != [] && (s[0] == 0x5C ==> |s| > 1)
  {
  }

  lemma AddMark(mark: Mark, marks: seq<Mark>, quote: byte)
    requires ValidPiece(InQuotes(quote, marks)) && (mark.escaped || (mark.octet != quote && mark.octet != 0x5C))
    ensures ValidPiece(InQuotes(quote, [mark] + marks))
    ensures WrittenMarks([mark] + marks)
         == (if mark.escaped then [0x5C, mark.octet] else [mark.octet]) + WrittenMarks(marks)
  {
    assert ([mark] + marks)[1..] == marks;
  }

  /** Inside quotes. */
  lemma {:induction false} FromQuote(s: Data, quote: byte) returns (marks: seq<Mark>, r: Rest)
    requires (quote == 0x22 || quote == 0x27) && OpenQuote(s, Some(quote)).None?
    ensures ValidPiece(InQuotes(quote, marks)) && ValidRest(r) && (r.words != [] ==> r.words[0].gap != [])
    ensures s == WrittenMarks(marks) + ([quote] + WrittenRest(r))
    decreases |s|, 0
  {
    EscapeGoesOn(s, quote);
    OpenQuoteStep(s, Some(quote));
    hide WrittenRest, OpenQuote, ValidRest, WrittenMarks, ValidPiece, Line, ValidLine, Ending, WrittenWord, AllWhite;
    if s[0] == quote {
      r := FromWord(s[1..]);
      marks := [];
      NoMarks(quote);
      assert s == [] + ([quote] + s[1..]);
    } else if s[0] == 0x5C {
      var later;
      later, r := FromQuote(s[2..], quote);
      marks := [Mark(s[1], true)] + later;
      AddMark(Mark(s[1], true), later, quote);
      Behind(s, 2, [0x5C, s[1]], WrittenMarks(later), [quote] + WrittenRest(r));
    } else {
      var later;
      later, r := FromQuote(s[1..], quote);
      marks := [Mark(s[0], false)] + later;
      AddMark(Mark(s[0], false), later, quote);
      Behind(s, 1, [s[0]], WrittenMarks(later), [quote] + WrittenRest(r));
    }
  }

  lemma Behind(s: Data, n: nat, head: Data, middle: Data, end: Data)
    requires n <= |s| && |head| == n && (forall i :: 0 <= i < n ==> head[i] == s[i]) && s[n..] == middle + end
    ensures s == (head + middle) + end
  {
    assert s == head + s[n..];
  }

  lemma NoMarks(quote: byte)
    ensures WrittenMarks([]) == [] && (quote == 0x22 || quote == 0x27 ==> ValidPiece(InQuotes(quote, [])))
  {
  }

  /** Every line that does not end inside a quote is such a line of words, and so is parsed to their contents. */
  lemma EveryLine(command: Data) returns (words: seq<Spaced>, tail: Data, lone: bool)
    requires OpenQuote(command, None).None?
    ensures ValidLine(words) && AllWhite(tail) && command == Line(words) + Ending(tail, lone)
    ensures Parse(command) == Some(ArgumentsOf(words, tail, lone))
  {
    words, tail, lone := FromOutside(command);
    hide Parse;
    WordsRoundTrip(words, tail, lone);
  }
}
