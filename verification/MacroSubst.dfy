/** Putting macro arguments into a line, in the buffer that holds it (cleanup of src/main.c). */
module MacroSubst {
  import opened Lexer
  import opened MacroArgs

  const NUL := 0 as char

  class Cleaner {
    const buf: array<char>
    var str: nat
    ghost var len: nat

    /** The line is what is in front of the first NUL. */
    ghost predicate Valid()
      reads this, buf
    {
      && buf.Length == MAXLINE && str <= len < MAXLINE && buf[len] == NUL
      && forall i :: 0 <= i < len ==> buf[i] != NUL
    }

    ghost function Done(): string
      requires Valid()
      reads this, buf
    {
      buf[..str]
    }

    ghost function Rest(): string
      requires Valid()
      reads this, buf
    {
      buf[str..len]
    }

    constructor (buf: array<char>, ghost len: nat)
      requires buf.Length == MAXLINE && len < MAXLINE && buf[len] == NUL
      requires forall i :: 0 <= i < len ==> buf[i] != NUL
      ensures Valid() && this.buf == buf && Done() == "" && Rest() == buf[..len] && this.len == len
    {
      this.buf := buf;
      this.len := len;
      str := 0;
    }

    /** Writing a character, not NUL, over the next one and going on. */
    method Overwrite(c: char)
      requires Valid() && str < len && c != NUL
      modifies this`str, buf
      ensures Valid() && len == old(len) && Done() == old(Done()) + [c] && Rest() == old(Rest())[1..]
    {
      buf[str] := c;
      str := str + 1;
    }

    /** A quoted character. At a line end the line is cut off. */
    method Character()
      requires Valid() && str + 1 < len && buf[str] == '\''
      modifies this, buf
      ensures Valid()
      ensures Done() == old(Done()) + [old(Rest())[0], AfterQuote(old(Rest())[1])]
      ensures Rest() == if old(Rest())[1] == '\n' then "" else old(Rest())[2..]
    {
      ghost var (start, before) := (str, buf[..]);
      str := str + 1;
      if buf[str] == '\t' {
        buf[str] := ' ';
      }
      if buf[str] == '\n' {
        buf[str] := ' ';
        buf[str + 1] := NUL;
        len := str + 1;
      }
      if buf[str] == ' ' {
        buf[str] := HARD_SPACE;
      }
      str := str + 1;
      TwoMore(before, buf[..], start, len, buf[start + 1]);
      assert buf[..][..str] == buf[..str] && buf[..][str..len] == buf[str..len];
      assert before[..start] == old(Done()) && before[start..old(len)] == old(Rest());
      assert old(Rest())[2..] == before[start + 2..old(len)];
    }

    /** A quoted string, after its first quote. */
    method Quoted() returns (closed: bool)
      requires Valid()
      modifies this`str, buf
      ensures Valid() && len == old(len)
      ensures var n := IndexOf(old(Rest()), '"');
              && Done() == old(Done()) + Harden(old(Rest())[..n]) && Rest() == old(Rest())[n..]
              && closed == (n < |old(Rest())|)
    {
      hide Harden, IndexOf;
      ghost var (start, before) := (str, buf[..]);
      HardenString();
      closed := buf[str] == '"';
      HardenedSlices(before, buf[..], start, str, len);
      assert buf[..][..str] == buf[..str] && buf[..][str..len] == buf[str..len];
      assert before[..start] == old(Done()) && before[start..len] == old(Rest());
    }

    method HardenString()
      requires Valid()
      modifies this`str, buf
      ensures Valid() && len == old(len) && old(str) <= str
      ensures buf[str] == '"' <==> str < len
      ensures forall j :: 0 <= j < old(str) || str <= j < MAXLINE ==> buf[j] == old(buf[j])
      ensures forall j :: old(str) <= j < str ==>
          old(buf[j]) != '"' && buf[j] == if old(buf[j]) == ' ' then HARD_SPACE else old(buf[j])
    {
      while buf[str] != NUL && buf[str] != '"'
        invariant Valid() && len == old(len) && old(str) <= str
        invariant forall j :: 0 <= j < old(str) || str <= j < MAXLINE ==> buf[j] == old(buf[j])
        invariant forall j :: old(str) <= j < str ==>
          old(buf[j]) != '"' && buf[j] == if old(buf[j]) == ' ' then HARD_SPACE else old(buf[j])
        decreases len - str
      {
        if buf[str] == ' ' {
          buf[str] := HARD_SPACE;
        }
        str := str + 1;
      }
    }

    /** The string at a position. */
    method StringAt(at: nat) returns (s: string)
      requires Valid() && at <= len
      ensures s == buf[at..len]
    {
      s := "";
      var i := at;
      while buf[i] != NUL
        invariant at <= i <= len && s == buf[at..i]
        decreases len - i
      {
        s := s + [buf[i]];
        i := i + 1;
      }
    }

    /** memmove */
    method MemMove(dst: nat, s: string)
      requires dst + |s| <= buf.Length
      modifies buf
      ensures forall j :: 0 <= j < buf.Length ==> buf[j] == if dst <= j < dst + |s| then s[j - dst] else old(buf[j])
    {
      var i := 0;
      while i < |s|
        invariant 0 <= i <= |s|
        invariant forall j :: 0 <= j < buf.Length ==> buf[j] == if dst <= j < dst + i then s[j - dst] else old(buf[j])
      {
        buf[dst + i] := s[i];
        i := i + 1;
      }
    }

    /** Moves the rest of the line by a signed offset. */
    method Shift(add: int, ghost start: nat)
      requires Valid() && start <= str && start <= str + add && len + add < MAXLINE
      modifies this, buf
      ensures buf.Length == MAXLINE && str == old(str) + add && len == old(len) + add && str <= len && buf[len] == NUL
      ensures buf[str..len] == old(Rest()) && forall i :: 0 <= i < start ==> buf[i] == old(buf[i])
    {
      var tail := StringAt(str);
      MemMove(str + add, tail + [NUL]);
      str := str + add;
      len := len + add;
      SliceIs(buf[..], str, len, tail);
      assert buf[..][str..len] == buf[str..len];
    }

    /** Puts an argument in the place of the braces in front of str: first what follows is moved by the
        signed offset add, then the argument is moved into the gap. Then str is back at its start. */
    method Insert(arg: string, add: int, ghost start: nat)
      requires Valid() && start < str && add == |arg| - (str - start)
      requires len + add < MAXLINE && forall i :: 0 <= i < |arg| ==> arg[i] != NUL
      modifies this, buf
      ensures Valid() && str == start && Done() == old(Done())[..start] && Rest() == arg + old(Rest())
    {
      ghost var (done, rest) := (Done(), Rest());
      assert forall i :: 0 <= i < |rest| ==> rest[i] != NUL;
      Shift(add, start);
      MemMove(str - |arg|, arg);
      str := str - |arg|;
      forall j | start <= j < len ensures buf[..][j] == (arg + rest)[j - start] {
        if j >= start + |arg| {
          assert buf[j] == rest[j - start - |arg|];
        }
      }
      SliceIs(buf[..], start, len, arg + rest);
      SliceIs(buf[..], 0, start, done[..start]);
      assert buf[..][start..len] == buf[start..len] && buf[..][0..start] == buf[..start];
    }

    /** Which argument a number in braces means. */
    method FindArgument(number: int, args: seq<string>) returns (k: nat)
      ensures k <= |args| && (0 <= number < |args| ==> k == number) && (number < 0 || number >= |args| ==> k == |args|)
    {
      var arg := number;
      k := 0;
      while arg != 0 && k < |args|
        invariant 0 <= k <= |args| && arg == number - k
        invariant number >= 0 ==> arg >= 0
        decreases |args| - k
      {
        arg := arg - 1;
        k := k + 1;
      }
    }

    /** Goes to the closing brace or the end of the line, counting back. */
    method SkipBraces() returns (add: int)
      requires Valid()
      modifies this`str
      ensures Valid() && str == old(str) + IndexOf(old(Rest()), '}') && add == old(str) - str
      ensures Done() == old(Done()) + old(Rest())[..str - old(str)] && Rest() == old(Rest())[str - old(str)..]
      ensures buf[str] == '}' <==> str < len
    {
      ghost var (rest, start) := (Rest(), str);
      add := 0;
      while buf[str] != NUL && buf[str] != '}'
        invariant start <= str <= len && add == start - str
        invariant forall i :: 0 <= i < str - start ==> rest[i] != '}'
        decreases len - str
      {
        assert buf[str] == rest[str - start];
        add := add - 1;
        str := str + 1;
      }
      FirstIndex(rest, '}', str - start);
    }

    /** What braces come to. */
    method Braces(args: seq<string>) returns (found: Found)
      requires Valid() && str < len && buf[str] == '{'
      requires forall i :: 0 <= i < |args| ==> AllPlain(args[i])
      modifies this, buf
      ensures var (rest, n) := (old(Rest()), IndexOf(old(Rest()), '}'));
              && (found.Unclosed? <==> n == |rest|)
              && (found.Unclosed? ==> Valid() && Done() == old(Done()) + rest && Rest() == "")
      ensures var (rest, n, k) := (old(Rest()), IndexOf(old(Rest()), '}'), Atoi(old(Rest())[1..]));
              && (found.TooFew? <==> n < |rest| && !(0 <= k < |args|))
              && (found.TooFew? ==> Valid() && Done() == old(Done()) + rest[..n + 1])
              && (found.Overflow? <==>
                    n < |rest| && 0 <= k < |args| && old(str) + |args[k]| + |rest[n + 1..]| + 1 > MAXLINE)
              && (found.Replaced? ==> Valid() && Done() == old(Done()) && Rest() == args[k] + rest[n + 1..])
    {
      hide Atoi, IndexOf, AllPlain;
      ghost var (done, rest, start) := (Done(), Rest(), str);
      var text := StringAt(str + 1);
      var number := Atoi(text);
      assert text == rest[1..];
      var add := SkipBraces();
      ghost var n := IndexOf(rest, '}');
      if buf[str] != '}' {
        return Unclosed;
      }
      add := add - 1;
      str := str + 1;
      assert Done() == done + rest[..n + 1] && Rest() == rest[n + 1..];
      assert (done + rest[..n + 1])[..start] == done;
      var k := FindArgument(number, args);
      if k == |args| {
        return TooFew;
      }
      var fits := PutArgument(args[k], add, start);
      return if fits then Replaced else Overflow;
    }

    /** Puts the argument where the braces were, if the line then still fits the buffer. */
    method PutArgument(arg: string, offset: int, ghost start: nat) returns (fits: bool)
      requires Valid() && start < str && offset == start - str && AllPlain(arg)
      modifies this, buf
      ensures fits <==> start + |arg| + |old(Rest())| + 1 <= MAXLINE
      ensures fits ==> Valid() && Done() == old(Done())[..start] && Rest() == arg + old(Rest())
    {
      hide AllPlain;
      var add := offset + |arg|;
      var following := StringAt(str);
      if str + add + |following| + 1 > MAXLINE {
        return false;
      }
      PlainIsText(arg);
      Insert(arg, add, start);
      return true;
    }

    /** The last character is no quote, or belongs to an argument. */
    ghost predicate EndsWell(plain: nat)
      requires Valid()
      reads this, buf
    {
      plain <= |Rest()| && TailOk(Rest(), plain)
    }

    /** One turn of the loop went well: what the line comes to is as it was, and less of it is left. */
    ghost predicate Went(t: Settings, done: string, rest: string, errors: nat, plain: nat, turn: Turn, errors': nat,
        plain': nat)
      reads this, buf
    {
      var was := t.Whole(done, rest, errors);
      match turn
      case Panic => was.TooLong?
      case Stop => Valid() && was == Line(Done(), errors')
      case Go =>
        && Valid() && was == t.Whole(Done(), Rest(), errors') && EndsWell(plain')
        && (|Rest()| - plain' < |rest| - plain || (|Rest()| - plain' == |rest| - plain && |Rest()| < |rest|))
    }

    /** A character that stays as it is, or a tab. */
    method TurnPlain(t: Settings, errors: nat, ghost plain: nat) returns (turn: Turn, ghost plain': nat)
      requires Valid() && str < len && EndsWell(plain)
      requires buf[str] == '\t' || IsPlain(buf[str]) || buf[str] == '}' || (buf[str] == '{' && t.disable)
      modifies this, buf
      ensures Went(t, old(Done()), old(Rest()), errors, plain, turn, errors, plain')
    {
      hide TailOk, Clean;
      ghost var (done, rest) := (Done(), Rest());
      plain' := if plain > 0 then plain - 1 else 0;
      PlainStep(t, done, rest, errors);
      TailNext(rest, plain);
      Overwrite(if buf[str] == '\t' then ' ' else buf[str]);
      turn := Go;
    }

    /** Cuts the line off in front of str, and the spaces before that. */
    method Trim()
      requires Valid()
      modifies this, buf
      ensures Valid() && str == len && Done() == TrimRight(old(Done()))
    {
      ghost var done := Done();
      while str != 0 && buf[str - 1] == ' '
        invariant Valid() && TrimRight(Done()) == TrimRight(done)
        decreases str
      {
        ghost var d := Done();
        assert d[|d| - 1] == ' ' && d[..|d| - 1] == buf[..str - 1];
        str := str - 1;
      }
      ghost var r := Done();
      buf[str] := NUL;
      len := str;
      assert Done() == r;
    }

    /** The loop. */
    method Scan(t: Settings) returns (panic: bool, errors: nat)
      requires Valid() && EndsWell(0)
      requires forall i :: 0 <= i < |t.args| ==> AllPlain(t.args[i])
      modifies this, buf
      ensures var whole := old(t.Whole(Done(), Rest(), 0));
              && (panic <==> whole.TooLong?)
              && (!panic ==> Valid() && whole == Line(Done(), errors))
    {
      hide Clean, TailOk, Total, AllPlain;
      ghost var whole := t.Whole(Done(), Rest(), 0);
      ghost var plain: nat := 0;
      errors := 0;
      while buf[str] != NUL
        invariant Valid() && EndsWell(plain) && t.Whole(Done(), Rest(), errors) == whole
        decreases |Rest()| - plain, |Rest()|
      {
        var turn;
        turn, errors, plain := TakeTurn(t, errors, plain);
        if turn == Panic {
          return true, errors;
        }
        if turn == Stop {
          return false, errors;
        }
      }
      assert Rest() == "";
      LineEnds(t, Done(), errors);
      panic := false;
    }

    /** The switch. */
    method TakeTurn(t: Settings, errors: nat, ghost plain: nat) returns (turn: Turn, errors': nat, ghost plain': nat)
      requires Valid() && str < len && EndsWell(plain)
      requires forall i :: 0 <= i < |t.args| ==> AllPlain(t.args[i])
      modifies this, buf
      ensures Went(t, old(Done()), old(Rest()), errors, plain, turn, errors', plain')
    {
      hide TailOk, Clean, AllPlain;
      turn, errors', plain' := Stop, errors, 0;
      match buf[str] {
        case ';' => LineStops(t, Done(), Rest(), errors);
        case '\r' => LineStops(t, Done(), Rest(), errors);
        case '\n' => LineStops(t, Done(), Rest(), errors);
        case '\'' => turn := TurnCharacter(t, errors, plain);
        case '"' => turn, errors' := TurnString(t, errors, plain);
        case '{' =>
          if t.disable {
            turn, plain' := TurnPlain(t, errors, plain);
          } else {
            turn, errors', plain' := TurnBraces(t, errors, plain);
          }
        case _ => turn, plain' := TurnPlain(t, errors, plain);
      }
    }

    method TurnCharacter(t: Settings, errors: nat, ghost plain: nat) returns (turn: Turn)
      requires Valid() && str < len && EndsWell(plain) && buf[str] == '\''
      modifies this, buf
      ensures Went(t, old(Done()), old(Rest()), errors, plain, turn, errors, 0)
    {
      hide TailOk, Clean;
      TailSpecial(Rest(), plain);
      CharacterStep(t, Done(), Rest(), errors);
      TailFrom(Rest(), 2);
      TailEmpty();
      Character();
      turn := Go;
    }

    method TurnString(t: Settings, errors: nat, ghost plain: nat) returns (turn: Turn, errors': nat)
      requires Valid() && str < len && EndsWell(plain) && buf[str] == '"'
      modifies this, buf
      ensures Went(t, old(Done()), old(Rest()), errors, plain, turn, errors', 0)
    {
      hide TailOk, Clean, Harden, IndexOf;
      ghost var (done, rest) := (Done(), Rest());
      TailSpecial(rest, plain);
      StringStep(t, done, rest, errors);
      ghost var n := 1 + IndexOf(rest[1..], '"');
      var closed := WholeString();
      if !closed {
        return Stop, errors + 1;
      }
      TailFrom(rest, n + 1);
      return Go, errors;
    }

    /** A quoted string with its quotes. */
    method WholeString() returns (closed: bool)
      requires Valid() && str < len && buf[str] == '"'
      modifies this, buf
      ensures var rest := old(Rest());
              var n := 1 + IndexOf(rest[1..], '"');
              && Valid() && n <= |rest| && closed == (n < |rest|)
              && Done() == old(Done()) + ['"'] + Harden(rest[1..n]) + (if closed then ['"'] else [])
              && (closed ==> Rest() == rest[n + 1..])
    {
      hide Harden, IndexOf;
      ghost var rest := Rest();
      ghost var n := 1 + IndexOf(rest[1..], '"');
      Overwrite('"');
      closed := Quoted();
      StringSlices(rest, n);
      if closed {
        Overwrite('"');
      }
    }

    method TurnBraces(t: Settings, errors: nat, ghost plain: nat) returns (turn: Turn, errors': nat, ghost plain': nat)
      requires Valid() && str < len && EndsWell(plain) && buf[str] == '{' && !t.disable
      requires forall i :: 0 <= i < |t.args| ==> AllPlain(t.args[i])
      modifies this, buf
      ensures Went(t, old(Done()), old(Rest()), errors, plain, turn, errors', plain')
    {
      hide TailOk, Clean, IndexOf, Atoi, AllPlain;
      ghost var (done, rest) := (Done(), Rest());
      TailSpecial(rest, plain);
      BracesStep(t, done, rest, errors);
      ghost var (n, k) := (IndexOf(rest, '}'), Atoi(rest[1..]));
      var found := Braces(t.args);
      match found
      case Unclosed => return Stop, errors, 0;
      case TooFew => return Stop, errors + 1, 0;
      case Overflow => return Panic, errors, 0;
      case Replaced =>
        TailFrom(rest, n + 1);
        TailInserted(t.args[k], rest[n + 1..]);
        return Go, errors, |t.args[k]|;
    }
  }

  /** v_execmac's list of arguments: the whole line, then its fields. */
  method SplitArguments(line: string) returns (args: seq<string>)
    ensures args == Arguments(line)
  {
    hide Fields, FieldSpan, SkipSpaces, AfterField;
    args := [line];
    var str := line;
    assert args + Fields(str) == Arguments(line);
    while str != "" && str[0] != '\n'
      invariant args + Fields(str) == Arguments(line)
      decreases |str|
    {
      var sone := str;
      FieldsNext(str);
      var n := 0;
      while n < |str| && str[n] != '\n' && str[n] != ','
        invariant n <= |str| && forall i :: 0 <= i < n ==> str[i] != ',' && str[i] != '\n'
      {
        n := n + 1;
      }
      SpanIs(sone, n);
      AfterIs(sone, n);
      str := str[n..];
      if str != "" && str[0] == ',' {
        str := str[1..];
      }
      str := SkipBlanks(str);
      assert args + ([sone[..n]] + Fields(str)) == args + [sone[..n]] + Fields(str);
      args := args + [sone[..n]];
    }
    FieldsEnd(str);
    assert args + [] == args;
  }

  lemma {:induction false} SpanIs(s: string, n: nat)
    requires n <= |s| && (n < |s| ==> s[n] == ',' || s[n] == '\n')
    requires forall i :: 0 <= i < n ==> s[i] != ',' && s[i] != '\n'
    ensures FieldSpan(s) == n
  {
    if n > 0 {
      SpanIs(s[1..], n - 1);
    }
  }

  method SkipBlanks(s: string) returns (r: string)
    ensures r == SkipSpaces(s)
  {
    r := s;
    while r != "" && r[0] == ' '
      invariant SkipSpaces(r) == SkipSpaces(s)
      decreases |r|
    {
      r := r[1..];
    }
  }

  /** cleanup, on a line in a buffer: the line becomes what Clean says, without the spaces at its end.
      panic: it got too long for the buffer. */
  method Cleanup(buf: array<char>, args: seq<string>, disable: bool, ghost line: string)
      returns (panic: bool, errors: nat)
    requires buf.Length == MAXLINE && |line| < MAXLINE && buf[..|line|] == line && buf[|line|] == NUL
    requires forall i :: 0 <= i < |line| ==> line[i] != NUL
    requires line != "" ==> line[|line| - 1] != '\''
    requires forall i :: 0 <= i < |args| ==> AllPlain(args[i])
    modifies buf
    ensures panic <==> Clean(0, line, args, disable).TooLong?
    ensures !panic ==>
              var r := Clean(0, line, args, disable);
              var text := TrimRight(r.text);
              && errors == r.errors && |text| < MAXLINE && buf[..|text|] == text && buf[|text|] == NUL
              && forall i :: 0 <= i < |text| ==> text[i] != NUL
  {
    hide Clean, TailOk, TrimRight, Total, AllPlain;
    assert forall i :: 0 <= i < |line| ==> buf[i] == line[i];
    var c := new Cleaner(buf, |line|);
    var t := Settings(args, disable);
    LineStarts(t, line);
    panic, errors := c.Scan(t);
    if !panic {
      c.Trim();
      assert c.Done() == buf[..c.str];
    }
  }

  /** What a line is to be cleaned with. */
  datatype Settings = Settings(args: seq<string>, disable: bool) {
    /** What the whole line comes to, from what has been done of it and what is left. */
    function Whole(done: string, rest: string, errors: nat): Cleaned {
      Total(done, errors, Clean(|done|, rest, args, disable))
    }
  }

  datatype Turn = Go | Stop | Panic

  function Total(done: string, errors: nat, r: Cleaned): Cleaned {
    if r.TooLong? then r else Line(done + r.text, errors + r.errors)
  }

  lemma TotalBefore(done: string, errors: nat, x: string, r: Cleaned)
    ensures Total(done, errors, Before(x, r)) == Total(done + x, errors, r)
  {
    if r.Line? {
      assert done + (x + r.text) == done + x + r.text;
    }
  }

  ghost predicate TailOk(rest: string, plain: nat) {
    && plain <= |rest| && AllPlain(rest[..plain])
    && (plain < |rest| ==> rest[|rest| - 1] != '\'')
  }

  lemma TailNext(rest: string, plain: nat)
    requires rest != "" && TailOk(rest, plain)
    ensures TailOk(rest[1..], if plain > 0 then plain - 1 else 0)
  {
    if plain > 0 {
      assert rest[1..][..plain - 1] == rest[..plain][1..];
    }
  }

  lemma PlainStep(t: Settings, done: string, rest: string, errors: nat)
    requires rest != ""
    requires rest[0] == '\t' || IsPlain(rest[0]) || rest[0] == '}' || (rest[0] == '{' && t.disable)
    ensures t.Whole(done, rest, errors) == t.Whole(done + [if rest[0] == '\t' then ' ' else rest[0]], rest[1..], errors)
  {
    TotalBefore(done, errors, [if rest[0] == '\t' then ' ' else rest[0]],
      Clean(|done| + 1, rest[1..], t.args, t.disable));
  }

  lemma TailSpecial(rest: string, plain: nat)
    requires rest != "" && TailOk(rest, plain) && !IsPlain(rest[0])
    ensures plain == 0 && (rest[0] == '\'' ==> |rest| > 1)
  {
    if plain > 0 {
      PlainFirst(rest, plain);
    }
  }

  lemma PlainFirst(rest: string, plain: nat)
    requires 0 < plain <= |rest| && AllPlain(rest[..plain])
    ensures IsPlain(rest[0])
  {
    assert IsPlain(rest[..plain][0]);
  }

  lemma TailFrom(rest: string, n: nat)
    requires TailOk(rest, 0) && n <= |rest|
    ensures TailOk(rest[n..], 0)
  {
  }

  lemma TailEmpty()
    ensures TailOk("", 0)
  {
  }

  lemma TailInserted(arg: string, rest: string)
    requires AllPlain(arg) && TailOk(rest, 0)
    ensures TailOk(arg + rest, |arg|)
  {
    assert (arg + rest)[..|arg|] == arg;
  }

  lemma CharacterStep(t: Settings, done: string, rest: string, errors: nat)
    requires |rest| > 1 && rest[0] == '\''
    ensures t.Whole(done, rest, errors)
         == t.Whole(done + [rest[0], AfterQuote(rest[1])], if rest[1] == '\n' then "" else rest[2..], errors)
  {
    TotalBefore(done, errors, [rest[0], AfterQuote(rest[1])],
      if rest[1] == '\n' then Line("", 0) else Clean(|done| + 2, rest[2..], t.args, t.disable));
  }

  lemma StringStep(t: Settings, done: string, rest: string, errors: nat)
    requires rest != "" && rest[0] == '"'
    ensures var n := 1 + IndexOf(rest[1..], '"');
            var quoted := done + ['"'] + Harden(rest[1..n]);
            var r := if n == |rest| then Line(quoted, errors + 1) else t.Whole(quoted + ['"'], rest[n + 1..], errors);
            t.Whole(done, rest, errors) == r
  {
    hide Harden, IndexOf;
    var n := 1 + IndexOf(rest[1..], '"');
    var quoted := ['"'] + Harden(rest[1..n]);
    assert done + ['"'] + Harden(rest[1..n]) == done + quoted;
    if n < |rest| {
      assert done + (quoted + ['"']) == done + quoted + ['"'];
      TotalBefore(done, errors, quoted + ['"'], Clean(|done| + n + 1, rest[n + 1..], t.args, t.disable));
    }
  }

  lemma BracesStep(t: Settings, done: string, rest: string, errors: nat)
    requires rest != "" && rest[0] == '{' && !t.disable
    requires forall i :: 0 <= i < |t.args| ==> AllPlain(t.args[i])
    ensures var (n, k) := (IndexOf(rest, '}'), Atoi(rest[1..]));
            var r :=
              if n == |rest| then Line(done + rest, errors)
              else if k < 0 || k >= |t.args| then Line(done + rest[..n + 1], errors + 1)
              else if |done| + |t.args[k]| + |rest[n + 1..]| + 1 > MAXLINE then TooLong
              else t.Whole(done, t.args[k] + rest[n + 1..], errors);
            t.Whole(done, rest, errors) == r
  {
    hide IndexOf, Atoi, AllPlain, Clean;
    var (n, k) := (IndexOf(rest, '}'), Atoi(rest[1..]));
    CleanBraces(|done|, rest, t.args);
    if n < |rest| && 0 <= k < |t.args| {
      CleanPlain(|done|, t.args[k], rest[n + 1..], t.args, t.disable);
    }
  }

  lemma LineStarts(t: Settings, line: string)
    requires line != "" ==> line[|line| - 1] != '\''
    ensures t.Whole("", line, 0) == Clean(0, line, t.args, t.disable) && TailOk(line, 0)
  {
    hide Clean;
    var r := Clean(0, line, t.args, t.disable);
    assert r.Line? ==> "" + r.text == r.text;
  }

  lemma LineStops(t: Settings, done: string, rest: string, errors: nat)
    requires rest != "" && (rest[0] == ';' || rest[0] == '\r' || rest[0] == '\n')
    ensures t.Whole(done, rest, errors) == Line(done, errors)
  {
    assert done + "" == done;
  }

  lemma LineEnds(t: Settings, done: string, errors: nat)
    ensures t.Whole(done, "", errors) == Line(done, errors)
  {
    assert done + "" == done;
  }

  lemma PlainIsText(s: string)
    requires AllPlain(s)
    ensures forall i :: 0 <= i < |s| ==> s[i] != NUL
  {
    forall i | 0 <= i < |s| ensures s[i] != NUL {
      assert IsPlain(s[i]);
    }
  }

  datatype Found = Replaced | Unclosed | TooFew | Overflow

  lemma SliceIs(s: string, i: nat, j: nat, t: string)
    requires i <= j <= |s| && |t| == j - i && forall k :: i <= k < j ==> s[k] == t[k - i]
    ensures s[i..j] == t
  {
  }

  lemma StringSlices(s: string, n: nat)
    requires 0 < n <= |s|
    ensures s[1..][..n - 1] == s[1..n] && s[1..][n - 1..] == s[n..] && (n < |s| ==> s[n..][1..] == s[n + 1..])
  {
  }

  lemma HardenedSlices(before: string, after: string, start: nat, end: nat, len: nat)
    requires start <= end <= len < |before| == |after|
    requires forall j :: 0 <= j < start || end <= j < |before| ==> after[j] == before[j]
    requires forall j :: start <= j < end ==>
        before[j] != '"' && after[j] == if before[j] == ' ' then HARD_SPACE else before[j]
    requires after[end] == '"' <==> end < len
    ensures var rest := before[start..len];
            var n := IndexOf(rest, '"');
            n == end - start && after[..end] == before[..start] + Harden(rest[..n]) && after[end..len] == rest[n..]
  {
    var (rest, n) := (before[start..len], end - start);
    FirstIndex(rest, '"', n);
    forall i | 0 <= i < len - end ensures after[end..len][i] == rest[n..][i] {
      assert after[end + i] == before[end + i];
    }
    assert |after[end..len]| == |rest[n..]|;
    assert after[end..len] == rest[n..];
    forall i | 0 <= i < end ensures after[..end][i] == (before[..start] + Harden(rest[..n]))[i] {
      if i >= start {
        assert rest[..n][i - start] == before[i];
      }
    }
  }

  /** Two characters further on. */
  lemma TwoMore(before: string, after: string, at: nat, len: nat, c: char)
    requires at + 2 <= len < |before| == |after|
    requires forall j :: 0 <= j < len && j != at + 1 ==> after[j] == before[j]
    requires after[at + 1] == c
    ensures after[..at + 2] == before[..at] + [before[at], c] && after[at + 2..len] == before[at + 2..len]
  {
  }
}
