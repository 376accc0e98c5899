/** Macro arguments and what a line becomes when they are put in (v_execmac of src/ops.c, cleanup of
    src/main.c), as functions. */
module MacroArgs {
  import opened Lexer
  import opened Symbols
  import opened Mangling

  // ---------------------------------------------------------------------------
  // Arguments

  predicate EndsArgs(s: string) {
    s == "" || s[0] == '\n'
  }

  /** How far a field goes: to a comma or the end of the line. */
  function FieldSpan(s: string): (n: nat)
    ensures n <= |s|
    ensures forall i :: 0 <= i < n ==> s[i] != ',' && s[i] != '\n'
    ensures n < |s| ==> s[n] == ',' || s[n] == '\n'
  {
    if EndsArgs(s) || s[0] == ',' then 0 else 1 + FieldSpan(s[1..])
  }

  function SkipSpaces(s: string): (r: string)
    ensures |r| <= |s| && (r != "" ==> r[0] != ' ')
  {
    if s != "" && s[0] == ' ' then SkipSpaces(s[1..]) else s
  }

  /** What is left after a field, its comma and the spaces after it. */
  function AfterField(s: string): (r: string)
    ensures !EndsArgs(s) ==> |r| < |s|
  {
    var n := FieldSpan(s);
    SkipSpaces(if n < |s| && s[n] == ',' then s[n + 1..] else s[n..])
  }

  /** The fields of an argument line. */
  function Fields(s: string): seq<string>
    decreases |s|
  {
    if EndsArgs(s) then [] else [s[..FieldSpan(s)]] + Fields(AfterField(s))
  }

  lemma FieldsNext(s: string)
    requires !EndsArgs(s)
    ensures Fields(s) == [s[..FieldSpan(s)]] + Fields(AfterField(s)) && |AfterField(s)| < |s|
  {
  }

  lemma FieldsEnd(s: string)
    requires EndsArgs(s)
    ensures Fields(s) == []
  {
  }

  lemma AfterIs(s: string, n: nat)
    requires n <= |s| && FieldSpan(s) == n
    ensures AfterField(s) == SkipSpaces(if n < |s| && s[n] == ',' then s[n + 1..] else s[n..])
  {
  }

  /** Argument 0 is the whole line, argument n its n-th field. */
  function Arguments(s: string): (r: seq<string>)
    ensures |r| > 0 && r[0] == s
  {
    [s] + Fields(s)
  }

  function Blanks(n: nat): (s: string)
    ensures |s| == n
  {
    if n == 0 then "" else " " + Blanks(n - 1)
  }

  /** Fields with a comma after each but the last, and so many spaces after the comma. */
  function Join(fs: seq<string>, gaps: seq<nat>): string
    requires |gaps| == |fs|
  {
    if fs == [] then ""
    else if |fs| == 1 then fs[0]
    else fs[0] + "," + (Blanks(gaps[0]) + Join(fs[1..], gaps[1..]))
  }

  /** Fields as they can be written: no comma, no line end, no leading space. */
  predicate IsField(f: string) {
    (forall i :: 0 <= i < |f| ==> f[i] != ',' && f[i] != '\n') && (f != "" ==> f[0] != ' ')
  }

  lemma {:induction false} SpanOf(f: string, rest: string)
    requires forall i :: 0 <= i < |f| ==> f[i] != ',' && f[i] != '\n'
    requires rest == "" || rest[0] == ',' || rest[0] == '\n'
    ensures FieldSpan(f + rest) == |f|
  {
    if f == "" {
      assert f + rest == rest;
    } else {
      SpanOf(f[1..], rest);
      assert (f + rest)[1..] == f[1..] + rest;
    }
  }

  lemma {:induction false} BlanksSkipped(n: nat, rest: string)
    requires rest == "" || rest[0] != ' '
    ensures SkipSpaces(Blanks(n) + rest) == rest
  {
    if n == 0 {
      assert "" + rest == rest;
    } else {
      assert (Blanks(n) + rest)[1..] == Blanks(n - 1) + rest;
      BlanksSkipped(n - 1, rest);
    }
  }

  /** Arguments written one after the other with commas, and perhaps spaces after them, are the arguments
      read, unless the last one is empty. */
  lemma {:induction false} FieldsOfJoin(fs: seq<string>, gaps: seq<nat>)
    requires |gaps| == |fs| && forall i :: 0 <= i < |fs| ==> IsField(fs[i])
    requires fs != [] ==> fs[|fs| - 1] != ""
    ensures Fields(Join(fs, gaps)) == fs
  {
    hide IsField, FieldSpan, AfterField, Blanks;
    if |fs| == 1 {
      LastField(fs[0]);
      assert Fields("") == [];
    } else if |fs| > 1 {
      var (f, rest) := (fs[0], Join(fs[1..], gaps[1..]));
      JoinStarts(fs[1..], gaps[1..]);
      NextField(f, gaps[0], rest);
      FieldsOfJoin(fs[1..], gaps[1..]);
      assert [f] + fs[1..] == fs;
    }
  }

  lemma NextField(f: string, gap: nat, rest: string)
    requires IsField(f) && rest != "" && rest[0] != ' '
    ensures var s := f + "," + (Blanks(gap) + rest);
            !EndsArgs(s) && s[..FieldSpan(s)] == f && AfterField(s) == rest
  {
    hide Blanks;
    var more := Blanks(gap) + rest;
    var s := f + "," + more;
    SpanOf(f, "," + more);
    assert s == f + ("," + more);
    assert s[..|f|] == f && s[|f| + 1..] == more;
    BlanksSkipped(gap, rest);
  }

  lemma LastField(f: string)
    requires IsField(f) && f != ""
    ensures !EndsArgs(f) && f[..FieldSpan(f)] == f && AfterField(f) == ""
  {
    SpanOf(f, "");
    assert f + "" == f && f[..|f|] == f && f[|f|..] == "";
  }

  lemma JoinStarts(fs: seq<string>, gaps: seq<nat>)
    requires |gaps| == |fs| && fs != [] && fs[|fs| - 1] != "" && forall i :: 0 <= i < |fs| ==> IsField(fs[i])
    ensures Join(fs, gaps) != "" && Join(fs, gaps)[0] != ' ' && Join(fs, gaps)[0] != '\n'
  {
    assert IsField(fs[0]);
  }

  // ---------------------------------------------------------------------------
  // Lines

  const MAXLINE := 1024
  const HARD_SPACE := 128 as char

  predicate IsSpace(c: char) {
    c == ' ' || 9 <= c as int <= 13
  }

  /** atoi, without its overflow. */
  function Atoi(s: string): int {
    if s != "" && IsSpace(s[0]) then Atoi(s[1..])
    else if s != "" && s[0] == '-' then -NumberValue(s[1..1 + DigitSpan(s[1..], Radix10)], Radix10)
    else
      var t := if s != "" && s[0] == '+' then s[1..] else s;
      NumberValue(t[..DigitSpan(t, Radix10)], Radix10)
  }

  /** Where a character first is. */
  function IndexOf(s: string, c: char): (n: nat)
    ensures n <= |s| && (n < |s| ==> s[n] == c)
    ensures forall i :: 0 <= i < n ==> s[i] != c
  {
    if s == "" || s[0] == c then 0 else 1 + IndexOf(s[1..], c)
  }

  lemma {:induction false} FirstIndex(s: string, c: char, n: nat)
    requires n <= |s| && (n < |s| ==> s[n] == c) && forall i :: 0 <= i < n ==> s[i] != c
    ensures IndexOf(s, c) == n
  {
    if n > 0 {
      FirstIndex(s[1..], c, n - 1);
    }
  }

  /** Spaces that parse will not take for separators. */
  function Harden(s: string): (r: string)
    ensures |r| == |s|
  {
    seq(|s|, i requires 0 <= i < |s| => if s[i] == ' ' then HARD_SPACE else s[i])
  }

  function AfterQuote(c: char): char {
    if c == '\t' || c == '\n' || c == ' ' then HARD_SPACE else c
  }

  /** The line, or the program gave up because it got too long. errors counts the error messages. */
  datatype Cleaned = Line(text: string, errors: nat) | TooLong

  function Before(s: string, r: Cleaned): Cleaned {
    if r.TooLong? then r else Line(s + r.text, r.errors)
  }

  /** Characters that mean nothing to cleanup. */
  predicate IsPlain(c: char) {
    c != ';' && c != '\r' && c != '\n' && c != '\t' && c != '\'' && c != '"' && c != '{' && c != '}' && c as int != 0
  }

  predicate AllPlain(s: string) {
    forall i :: 0 <= i < |s| ==> IsPlain(s[i])
  }

  /** What becomes of the rest of a line that begins at this position: comments go, tabs become spaces,
      spaces in quotes are protected, and each {n} becomes the n-th argument. */
  function Clean(at: nat, s: string, args: seq<string>, disable: bool): Cleaned
    decreases |s|
  {
    if s == "" || s[0] == ';' || s[0] == '\r' || s[0] == '\n' then Line("", 0)
    else if s[0] == '\t' then Before(" ", Clean(at + 1, s[1..], args, disable))
    else if s == "'" then Line([s[0], HARD_SPACE], 0)
    else if s[0] == '\'' then
      Before([s[0], AfterQuote(s[1])], if s[1] == '\n' then Line("", 0) else Clean(at + 2, s[2..], args, disable))
    else if s[0] == '"' then
      var n := 1 + IndexOf(s[1..], '"');
      var quoted := [s[0]] + Harden(s[1..n]);
      if n == |s| then Line(quoted, 1)
      else Before(quoted + [s[n]], Clean(at + n + 1, s[n + 1..], args, disable))
    else if s[0] == '{' && !disable then
      var n := IndexOf(s, '}');
      var k := Atoi(s[1..]);
      if n == |s| then Line(s, 0)
      else if k < 0 || k >= |args| then Line(s[..n + 1], 1)
      else if at + |args[k]| + |s[n + 1..]| + 1 > MAXLINE then TooLong
      else Before(args[k], Clean(at + |args[k]|, s[n + 1..], args, disable))
    else Before([s[0]], Clean(at + 1, s[1..], args, disable))
  }

  lemma CleanBraces(at: nat, s: string, args: seq<string>)
    requires s != "" && s[0] == '{'
    ensures var (n, k) := (IndexOf(s, '}'), Atoi(s[1..]));
            var r :=
              if n == |s| then Line(s, 0)
              else if k < 0 || k >= |args| then Line(s[..n + 1], 1)
              else if at + |args[k]| + |s[n + 1..]| + 1 > MAXLINE then TooLong
              else Before(args[k], Clean(at + |args[k]|, s[n + 1..], args, false));
            Clean(at, s, args, false) == r
  {
    hide Atoi, IndexOf;
  }

  function TrimRight(s: string): (r: string)
    ensures |r| <= |s| && r == s[..|r|]
    ensures r != "" ==> r[|r| - 1] != ' '
  {
    if s != "" && s[|s| - 1] == ' ' then TrimRight(s[..|s| - 1]) else s
  }

  /** All the spaces at the end go, and nothing else. */
  lemma {:induction false} TrimmedIs(s: string)
    ensures s == TrimRight(s) + Blanks(|s| - |TrimRight(s)|)
  {
    if s != "" && s[|s| - 1] == ' ' {
      var front := s[..|s| - 1];
      TrimmedIs(front);
      var n := |front| - |TrimRight(front)|;
      BlankEnd(n);
      assert s == front + " ";
      assert TrimRight(front) + Blanks(n) + " " == TrimRight(front) + Blanks(n + 1);
    } else {
      assert s + "" == s;
    }
  }

  lemma {:induction false} BlankEnd(n: nat)
    ensures Blanks(n) + " " == Blanks(n + 1)
  {
    if n > 0 {
      BlankEnd(n - 1);
      assert " " + Blanks(n - 1) + " " == " " + (Blanks(n - 1) + " ");
    }
  }

  lemma BeforeBefore(a: string, b: string, r: Cleaned)
    ensures Before(a, Before(b, r)) == Before(a + b, r)
  {
    if r.Line? {
      assert a + (b + r.text) == a + b + r.text;
    }
  }

  /** What has been put in is read again, and comes out as it is. */
  lemma {:induction false} CleanPlain(at: nat, p: string, s: string, args: seq<string>, disable: bool)
    requires AllPlain(p)
    ensures Clean(at, p + s, args, disable) == Before(p, Clean(at + |p|, s, args, disable))
    decreases |p|
  {
    if p == "" {
      assert p + s == s;
      BeforeNothing(Clean(at, s, args, disable));
    } else {
      assert IsPlain(p[0]);
      assert (p + s)[1..] == p[1..] + s;
      CleanPlain(at + 1, p[1..], s, args, disable);
      BeforeBefore([p[0]], p[1..], Clean(at + |p|, s, args, disable));
      assert [p[0]] + p[1..] == p;
    }
  }

  lemma BeforeNothing(r: Cleaned)
    ensures Before("", r) == r
  {
    if r.Line? {
      assert "" + r.text == r.text;
    }
  }

  // ---------------------------------------------------------------------------
  // Whole lines

  /** A piece of a macro line: text, the number of an argument in braces, a tab, a character constant, or a
      string. */
  datatype Piece = Text(s: string) | Ref(n: nat) | Tab | Quote(c: char) | Quoted(s: string)

  function PieceText(p: Piece): string {
    match p
    case Text(s) => s
    case Ref(n) => "{" + DecimalText(n) + "}"
    case Tab => "\t"
    case Quote(c) => ['\'', c]
    case Quoted(s) => "\"" + s + "\""
  }

  function Written(ps: seq<Piece>): string {
    if ps == [] then "" else PieceText(ps[0]) + Written(ps[1..])
  }

  /** Spaces made to look like no spaces. */
  function Protected(s: string): string {
    if s == "" then "" else [if s[0] == ' ' then 128 as char else s[0]] + Protected(s[1..])
  }

  lemma {:induction false} HardenProtects(s: string)
    ensures Harden(s) == Protected(s)
  {
    if s != "" {
      HardenProtects(s[1..]);
      assert Harden(s) == [Harden(s)[0]] + Harden(s[1..]);
    }
  }

  /** What a piece stands for: an argument in its place, a space, what is quoted with its spaces protected. */
  function Value(p: Piece, args: seq<string>): string
    requires PieceOk(p, args)
  {
    match p
    case Text(s) => s
    case Ref(n) => args[n]
    case Tab => " "
    case Quote(c) => ['\'', if c == ' ' || c == '\t' then 128 as char else c]
    case Quoted(s) => "\"" + Protected(s) + "\""
  }

  predicate PieceOk(p: Piece, args: seq<string>) {
    match p
    case Text(s) => AllPlain(s)
    case Ref(n) => n < |args| && AllPlain(args[n])
    case Tab => true
    case Quote(c) => c != '\n'
    case Quoted(s) => forall i :: 0 <= i < |s| ==> s[i] != '"'
  }

  /** The line with everything in its place. */
  function Filled(ps: seq<Piece>, args: seq<string>): string
    requires forall i :: 0 <= i < |ps| ==> PieceOk(ps[i], args)
  {
    if ps == [] then "" else Value(ps[0], args) + Filled(ps[1..], args)
  }

  /** Whenever an argument has been put in, the line, with this many characters behind it, still fits the
      buffer. */
  predicate Fits(at: nat, ps: seq<Piece>, args: seq<string>, behind: nat)
    requires forall i :: 0 <= i < |ps| ==> PieceOk(ps[i], args)
    decreases |ps|
  {
    ps != [] ==>
      && (ps[0].Ref? ==> at + |Value(ps[0], args)| + |Written(ps[1..])| + behind + 1 <= MAXLINE)
      && Fits(at + |Value(ps[0], args)|, ps[1..], args, behind)
  }

  /** The end of a line: a comment, the end of the text, or nothing. */
  predicate Ends(tail: string) {
    tail == "" || tail[0] in {';', '\r', '\n'}
  }

  lemma ReferenceReads(n: nat, rest: string)
    ensures var s := "{" + DecimalText(n) + "}" + rest;
            && Atoi(s[1..]) == n && IndexOf(s, '}') == |DecimalText(n)| + 1
            && s[|DecimalText(n)| + 2..] == rest
  {
    var d := DecimalText(n);
    var s := "{" + d + "}" + rest;
    DecimalDigits(n);
    DecimalReads(n);
    hide DecimalText, Atoi, IndexOf, NumberValue;
    LeadingPart(d, "}" + rest);
    assert s[1..] == d + ("}" + rest);
    DigitsRead(d, s[1..]);
    FirstIndex(s, '}', |d| + 1);
  }

  /** Numbers in braces may have spaces and a sign in front of them; what follows the digits does not count. */
  lemma NumberReads(blanks: nat, n: nat, rest: string)
    requires rest == "" || !IsDecimal(rest[0])
    ensures var text := DecimalText(n) + rest;
            && Atoi(Blanks(blanks) + text) == n
            && Atoi(Blanks(blanks) + ("+" + text)) == n && Atoi(Blanks(blanks) + ("-" + text)) + n == 0
  {
    var (d, text) := (DecimalText(n), DecimalText(n) + rest);
    DecimalDigits(n);
    DecimalReads(n);
    SpanOfDigits(d, rest);
    DigitsRead(d, text);
    BlanksRead(blanks, text);
    BlanksRead(blanks, "+" + text);
    BlanksRead(blanks, "-" + text);
  }

  lemma DigitsRead(d: string, text: string)
    requires d != "" && IsDecimal(d[0]) && d <= text && DigitSpan(text, Radix10) == |d|
    ensures Atoi(text) == NumberValue(d, Radix10)
    ensures Atoi("+" + text) == NumberValue(d, Radix10) && Atoi("-" + text) == -NumberValue(d, Radix10)
  {
    hide DigitSpan, NumberValue;
    assert text[0] == d[0] && text[..|d|] == d;
    assert ("+" + text)[1..] == text && ("-" + text)[1..] == text && ("-" + text)[1..1 + |d|] == d;
  }

  lemma {:induction false} BlanksRead(n: nat, text: string)
    ensures Atoi(Blanks(n) + text) == Atoi(text)
  {
    hide DigitSpan, NumberValue;
    if n == 0 {
      assert "" + text == text;
    } else {
      var s := Blanks(n) + text;
      assert s[0] == ' ' && s[1..] == Blanks(n - 1) + text;
      BlanksRead(n - 1, text);
    }
  }

  lemma SpanOfDigits(d: string, rest: string)
    requires forall i :: 0 <= i < |d| ==> IsDecimal(d[i])
    requires rest == "" || !IsDecimal(rest[0])
    ensures DigitSpan(d + rest, Radix10) == |d|
  {
    if rest == "" {
      assert d + rest == d;
    } else {
      LeadingPart(d, rest);
    }
  }

  lemma ReferenceFills(at: nat, n: nat, rest: string, args: seq<string>)
    requires n < |args|
    ensures Clean(at, "{" + DecimalText(n) + "}" + rest, args, false)
         == if at + |args[n]| + |rest| + 1 > MAXLINE then TooLong
           else Before(args[n], Clean(at + |args[n]|, rest, args, false))
  {
    ReferenceReads(n, rest);
    hide Atoi, IndexOf, DecimalText;
  }

  lemma TabFills(at: nat, rest: string, args: seq<string>)
    ensures Clean(at, "\t" + rest, args, false) == Before(" ", Clean(at + 1, rest, args, false))
  {
    assert ("\t" + rest)[1..] == rest;
  }

  lemma QuoteFills(at: nat, c: char, rest: string, args: seq<string>)
    requires c != '\n'
    ensures Clean(at, ['\'', c] + rest, args, false)
         == Before(['\'', if c == ' ' || c == '\t' then 128 as char else c], Clean(at + 2, rest, args, false))
  {
    var s := ['\'', c] + rest;
    assert s[0] == '\'' && s[1] == c && s[2..] == rest;
  }

  lemma QuotedFills(at: nat, q: string, rest: string, args: seq<string>)
    requires forall i :: 0 <= i < |q| ==> q[i] != '"'
    ensures Clean(at, "\"" + q + "\"" + rest, args, false)
         == Before("\"" + Protected(q) + "\"", Clean(at + |q| + 2, rest, args, false))
  {
    var s := "\"" + q + "\"" + rest;
    assert s[1..] == q + ("\"" + rest);
    FirstIndex(s[1..], '"', |q|);
    HardenProtects(q);
    assert s[1..|q| + 1] == q && s[|q| + 2..] == rest && s[|q| + 1] == '"';
    CleanString(at, s, args, |q| + 1);
    assert ['"'] + Protected(q) + ['"'] == "\"" + Protected(q) + "\"";
  }

  lemma CleanString(at: nat, s: string, args: seq<string>, n: nat)
    requires s != "" && s[0] == '"' && n == 1 + IndexOf(s[1..], '"') < |s|
    ensures Clean(at, s, args, false)
         == Before([s[0]] + Harden(s[1..n]) + [s[n]], Clean(at + n + 1, s[n + 1..], args, false))
  {
    hide IndexOf, Harden;
  }

  lemma PieceFills(at: nat, p: Piece, rest: string, args: seq<string>)
    requires PieceOk(p, args)
    ensures Clean(at, PieceText(p) + rest, args, false)
         == if p.Ref? && at + |Value(p, args)| + |rest| + 1 > MAXLINE then TooLong
            else Before(Value(p, args), Clean(at + |Value(p, args)|, rest, args, false))
  {
    hide DecimalText, Clean, Protected;
    match p
    case Text(s) => CleanPlain(at, s, rest, args, false);
    case Ref(n) => ReferenceFills(at, n, rest, args);
    case Tab => TabFills(at, rest, args);
    case Quote(c) => QuoteFills(at, c, rest, args);
    case Quoted(s) =>
      QuotedFills(at, s, rest, args);
      ProtectedLength(s);
  }

  lemma {:induction false} ProtectedLength(s: string)
    ensures |Protected(s)| == |s|
  {
    if s != "" {
      ProtectedLength(s[1..]);
    }
  }

  /** A line becomes itself with each {n} replaced by argument n, tabs by spaces, spaces in quotes protected
      and the comment gone; or, just if it does not fit the buffer at some time, the program gives up. */
  lemma {:induction false} ArgumentsFill(at: nat, ps: seq<Piece>, tail: string, args: seq<string>)
    requires Ends(tail) && forall i :: 0 <= i < |ps| ==> PieceOk(ps[i], args)
    ensures Clean(at, Written(ps) + tail, args, false)
         == if Fits(at, ps, args, |tail|) then Line(Filled(ps, args), 0) else TooLong
    decreases |ps|
  {
    hide Clean, PieceText, Value, PieceOk;
    if ps == [] {
      assert Written(ps) + tail == tail;
      CleanEnds(at, tail, args);
    } else {
      var rest := Written(ps[1..]) + tail;
      assert PieceOk(ps[0], args);
      assert Written(ps) + tail == PieceText(ps[0]) + rest;
      ArgumentsFill(at + |Value(ps[0], args)|, ps[1..], tail, args);
      PieceFills(at, ps[0], rest, args);
    }
  }

  lemma CleanEnds(at: nat, tail: string, args: seq<string>)
    requires Ends(tail)
    ensures Clean(at, tail, args, false) == Line("", 0)
  {
  }

  /** A string that is not closed is an error; it goes to the end of the text, comment sign, line end and
      all. Braces that are not closed stay as they are, and so do those of an argument that is missing, which
      is an error and the end of the line. A quote at the end of the line quotes a space. */
  lemma BrokenLines(at: nat, q: string, n: nat, rest: string, args: seq<string>)
    ensures (forall i :: 0 <= i < |q| ==> q[i] != '"') ==>
              Clean(at, "\"" + q, args, false) == Line("\"" + Protected(q), 1)
    ensures (forall i :: 0 <= i < |q| ==> q[i] != '}') ==> Clean(at, "{" + q, args, false) == Line("{" + q, 0)
    ensures Clean(at, "'", args, false) == Clean(at, "'\n" + rest, args, false) == Line(['\'', 128 as char], 0)
    ensures n >= |args| ==>
              Clean(at, "{" + DecimalText(n) + "}" + rest, args, false) == Line("{" + DecimalText(n) + "}", 1)
  {
    if forall i :: 0 <= i < |q| ==> q[i] != '"' {
      var s := "\"" + q;
      assert s[1..] == q;
      FirstIndex(q, '"', |q|);
      HardenProtects(q);
      OpenString(at, s, args);
    }
    if forall i :: 0 <= i < |q| ==> q[i] != '}' {
      FirstIndex("{" + q, '}', |q| + 1);
      CleanBraces(at, "{" + q, args);
    }
    assert ("'\n" + rest)[1] == '\n';
    if n >= |args| {
      var s := "{" + DecimalText(n) + "}" + rest;
      ReferenceReads(n, rest);
      CleanBraces(at, s, args);
      assert s[..|DecimalText(n)| + 2] == "{" + DecimalText(n) + "}";
    }
  }

  lemma OpenString(at: nat, s: string, args: seq<string>)
    requires s != "" && s[0] == '"' && 1 + IndexOf(s[1..], '"') == |s|
    ensures Clean(at, s, args, false) == Line([s[0]] + Harden(s[1..]), 1)
  {
    hide IndexOf, Harden;
    assert s[1..|s|] == s[1..];
  }

  /** Where substitution is disabled braces are text like any other. */
  lemma DisabledBraces(at: nat, rest: string, args: seq<string>)
    ensures Clean(at, "{" + rest, args, true) == Before("{", Clean(at + 1, rest, args, true))
  {
    assert ("{" + rest)[1..] == rest;
  }
}
