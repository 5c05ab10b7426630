/** The key DSL: its tokenizer, a printer for token lists, and the proof that they undo each other. */
module Dsl {
  import opened Wrappers

  datatype Key = Shift | Control | Meta | Alt

  datatype Token =
    | Sequence(buffer: string)
    | Unicode(buffer: string)
    | KeyUp(key: Key)
    | KeyDown(key: Key)

  datatype ParseError = UnknownTag(tag: string) | UnexpectedOpen | UnmatchedOpen | UnmatchedClose

  type Tokens = Result<seq<Token>, ParseError>

  // ---- What the tokenizer computes ----

  function Flushed(buffer: string, unicode: bool): seq<Token> {
    if buffer == "" then [] else if unicode then [Unicode(buffer)] else [Sequence(buffer)]
  }

  /** The rest of a tag after the part already read, and the input behind its closing bracket. */
  function ScanTag(input: string, tag: string): Result<(string, string), ParseError>
    decreases |input|
  {
    if input == "" then Err(UnmatchedOpen)
    else if input[0] == '{' then
      if |input| > 1 && input[1] == '{' then ScanTag(input[2..], tag + "{") else Err(UnexpectedOpen)
    else if input[0] == '}' then
      if |input| > 1 && input[1] == '}' then ScanTag(input[2..], tag + "}") else Ok((tag, input[1..]))
    else ScanTag(input[1..], tag + [input[0]])
  }

  lemma {:induction false} ScanTagShrinks(input: string, tag: string)
    ensures ScanTag(input, tag).Ok? ==>
              var rest := ScanTag(input, tag).value.1;
              |rest| < |input| && (rest == "" || rest[0] != '}')
    decreases |input|
  {
    if input == "" {
    } else {
      if input[0] == '{' {
        if |input| > 1 && input[1] == '{' {
          ScanTagShrinks(input[2..], tag + "{");
        }
      } else if input[0] == '}' {
        if |input| > 1 && input[1] == '}' {
          ScanTagShrinks(input[2..], tag + "}");
        }
      } else {
        ScanTagShrinks(input[1..], tag + [input[0]]);
      }
    }
  }

  datatype Tag = Mode(unicode: bool) | Press(token: Token)

  function TagOf(tag: string): Option<Tag> {
    match tag
    case "+UNICODE" => Some(Mode(true))
    case "-UNICODE" => Some(Mode(false))
    case "+SHIFT" => Some(Press(KeyDown(Shift)))
    case "-SHIFT" => Some(Press(KeyUp(Shift)))
    case "+CTRL" => Some(Press(KeyDown(Control)))
    case "-CTRL" => Some(Press(KeyUp(Control)))
    case "+META" => Some(Press(KeyDown(Meta)))
    case "-META" => Some(Press(KeyUp(Meta)))
    case "+ALT" => Some(Press(KeyDown(Alt)))
    case "-ALT" => Some(Press(KeyUp(Alt)))
    case _ => None
  }

  function Prepend(ts: seq<Token>, r: Tokens): Tokens {
    match r
    case Ok(us) => Ok(ts + us)
    case Err(_) => r
  }

  lemma PrependTwice(ts: seq<Token>, us: seq<Token>, r: Tokens)
    ensures Prepend(ts, Prepend(us, r)) == Prepend(ts + us, r)
    ensures Prepend([], r) == r
  {
    if r.Ok? {
      assert ts + (us + r.value) == ts + us + r.value;
      assert [] + r.value == r.value;
    }
  }

  /** The tokens of the input behind a buffer already read. */
  function Scan(input: string, buffer: string, unicode: bool): Tokens
    decreases |input|
  {
    if input == "" then Ok(Flushed(buffer, unicode))
    else if input[0] == '{' then
      if |input| == 1 then Err(UnmatchedOpen)
      else if input[1] == '{' then Scan(input[2..], buffer + "{", unicode)
      else Prepend(Flushed(buffer, unicode), ScanBehindTag(input, unicode))
    else if input[0] == '}' then
      if |input| > 1 && input[1] == '}' then Scan(input[2..], buffer + "}", unicode) else Err(UnmatchedClose)
    else Scan(input[1..], buffer + [input[0]], unicode)
  }

  /** The tokens of an input that starts with a tag. */
  function ScanBehindTag(input: string, unicode: bool): Tokens
    requires |input| > 1
    decreases |input|, 0
  {
    match ScanTag(input[2..], [input[1]])
    case Err(e) => Err(e)
    case Ok((tag, rest)) =>
      ScanTagShrinks(input[2..], [input[1]]);
      match TagOf(tag)
      case None => Err(UnknownTag(tag))
      case Some(Mode(u)) => Scan(rest, "", u)
      case Some(Press(token)) => Prepend([token], Scan(rest, "", unicode))
  }

  function Tokenized(input: string): Tokens {
    Scan(input, "", false)
  }

  // ---- The tokenizer ----

  method Tokenize(input: string) returns (r: Tokens)
    ensures r == Tokenized(input)
  {
    var unicode := false;
    var tokens: seq<Token> := [];
    var buffer := "";
    var i := 0;
    assert input[0..] == input;
    PrependTwice([], [], Tokenized(input));
    while i < |input|
      invariant 0 <= i <= |input|
      invariant Prepend(tokens, Scan(input[i..], buffer, unicode)) == Tokenized(input)
    {
      var c := input[i];
      assert input[i..][1..] == input[i + 1..];
      i := i + 1;
      if c == '{' {
        if i == |input| {
          return Err(UnmatchedOpen);
        }
        assert input[i - 1..][2..] == input[i + 1..];
        c := input[i];
        i := i + 1;
        if c == '{' {
          buffer := buffer + "{";
        } else {
          PrependTwice(tokens, Flushed(buffer, unicode), ScanBehindTag(input[i - 2..], unicode));
          tokens := Flush(tokens, buffer, unicode);
          buffer := "";
          var tag;
          tag, i := ReadTag(input, i, c);
          if tag.Err? {
            return Err(tag.error);
          }
          match TagOf(tag.value) {
            case Some(Mode(u)) => unicode := u;
            case Some(Press(token)) =>
              PrependTwice(tokens, [token], Scan(input[i..], "", unicode));
              tokens := tokens + [token];
            case None => return Err(UnknownTag(tag.value));
          }
        }
      } else if c == '}' {
        if i == |input| || input[i] != '}' {
          return Err(UnmatchedClose);
        }
        assert input[i - 1..][2..] == input[i + 1..];
        buffer := buffer + "}";
        i := i + 1;
      } else {
        buffer := buffer + [c];
      }
    }
    tokens := Flush(tokens, buffer, unicode);
    return Ok(tokens);
  }

  method Flush(tokens: seq<Token>, buffer: string, unicode: bool) returns (r: seq<Token>)
    ensures r == tokens + Flushed(buffer, unicode)
  {
    r := tokens;
    if buffer != "" {
      if unicode {
        r := r + [Unicode(buffer)];
      } else {
        r := r + [Sequence(buffer)];
      }
    }
  }

  /** The inner loop: the tag that starts with `first`, and the position behind it. */
  method ReadTag(input: string, start: nat, first: char) returns (tag: Result<string, ParseError>, i: nat)
    requires start <= |input|
    ensures start <= i <= |input|
    ensures match ScanTag(input[start..], [first])
            case Err(e) => tag == Err(e)
            case Ok((name, rest)) => tag == Ok(name) && rest == input[i..]
  {
    var c := first;
    var name := "";
    i := start;
    assert name + [c] == [first];
    while true
      invariant start <= i <= |input|
      invariant ScanTag(input[start..], [first]) == ScanTag(input[i..], name + [c])
      decreases |input| - i
    {
      name := name + [c];
      if i == |input| {
        return Err(UnmatchedOpen), i;
      }
      var next := input[i];
      i := i + 1;
      assert input[i - 1..][1..] == input[i..];
      if next == '{' || next == '}' {
        if i == |input| || input[i] != next {
          return if next == '{' then Err(UnexpectedOpen) else Ok(name), i;
        }
        assert input[i - 1..][2..] == input[i + 1..];
        i := i + 1;
      }
      c := next;
    }
  }

  // ---- The printer ----

  function EscapedChar(c: char): string {
    if c == '{' then "{{" else if c == '}' then "}}" else [c]
  }

  function Escaped(s: string): string {
    if s == "" then "" else EscapedChar(s[0]) + Escaped(s[1..])
  }

  function TagText(t: Token): string {
    match t
    case Sequence(_) => "-UNICODE"
    case Unicode(_) => "+UNICODE"
    case KeyUp(Shift) => "-SHIFT"
    case KeyDown(Shift) => "+SHIFT"
    case KeyUp(Control) => "-CTRL"
    case KeyDown(Control) => "+CTRL"
    case KeyUp(Meta) => "-META"
    case KeyDown(Meta) => "+META"
    case KeyUp(Alt) => "-ALT"
    case KeyDown(Alt) => "+ALT"
  }

  function BufferText(t: Token): string {
    if t.Sequence? || t.Unicode? then Escaped(t.buffer) else ""
  }

  /** Every token behind a tag of its own. */
  function PrintTagged(ts: seq<Token>): string {
    if ts == [] then ""
    else "{" + TagText(ts[0]) + "}" + BufferText(ts[0]) + PrintTagged(ts[1..])
  }

  /** Only a leading plain sequence needs no tag. */
  function Print(ts: seq<Token>): string {
    if ts != [] && ts[0].Sequence? then Escaped(ts[0].buffer) + PrintTagged(ts[1..]) else PrintTagged(ts)
  }

  // ---- The image of the tokenizer ----

  predicate HasBuffer(t: Token) {
    t.Sequence? || t.Unicode?
  }

  /** A token that can stand behind a tag. */
  predicate Plain(t: Token) {
    HasBuffer(t) ==> t.buffer != "" && t.buffer[0] != '}'
  }

  predicate AllPlain(ts: seq<Token>) {
    forall k | 0 <= k < |ts| :: Plain(ts[k])
  }

  /** No empty buffers, and none that starts with a closing bracket except a plain one at the start. */
  predicate InImage(ts: seq<Token>) {
    ts == [] || (AllPlain(ts[1..]) && (Plain(ts[0]) || (ts[0].Sequence? && ts[0].buffer != "")))
  }

  // ---- Printing and tokenizing again ----

  lemma ScanEscapedChar(c: char, rest: string, buffer: string, unicode: bool)
    ensures Scan(EscapedChar(c) + rest, buffer, unicode) == Scan(rest, buffer + [c], unicode)
  {
    var text := EscapedChar(c) + rest;
    assert text[|EscapedChar(c)|..] == rest;
  }

  /** Escaped text ends up in the buffer, whatever follows it. */
  lemma {:induction false} ScanEscaped(s: string, rest: string, buffer: string, unicode: bool)
    ensures Scan(Escaped(s) + rest, buffer, unicode) == Scan(rest, buffer + s, unicode)
    decreases |s|
  {
    if s == "" {
      assert Escaped(s) + rest == rest && buffer + s == buffer;
    } else {
      ScanEscapedChar(s[0], Escaped(s[1..]) + rest, buffer, unicode);
      ScanEscaped(s[1..], rest, buffer + [s[0]], unicode);
      assert Escaped(s) + rest == EscapedChar(s[0]) + (Escaped(s[1..]) + rest);
      assert buffer + [s[0]] + s[1..] == buffer + s;
    }
  }

  predicate NoBrackets(s: string) {
    forall k | 0 <= k < |s| :: s[k] != '{' && s[k] != '}'
  }

  lemma {:induction false} ScanTagName(name: string, tag: string, rest: string)
    requires NoBrackets(name) && (rest == "" || rest[0] != '}')
    ensures ScanTag(name + "}" + rest, tag) == Ok((tag + name, rest))
    decreases |name|
  {
    var text := name + "}" + rest;
    if name == "" {
      assert text == "}" + rest && text[1..] == rest && tag + name == tag;
    } else {
      assert text[1..] == name[1..] + "}" + rest;
      ScanTagName(name[1..], tag + [name[0]], rest);
      assert tag + [name[0]] + name[1..] == tag + name;
    }
  }

  lemma TagTextIsRead(t: Token)
    ensures TagOf(TagText(t)) == Some(if HasBuffer(t) then Mode(t.Unicode?) else Press(t))
  {
  }

  /** The names of tags hold no brackets. */
  lemma NamesArePlain(name: string)
    requires TagOf(name).Some?
    ensures |name| > 1 && NoBrackets(name)
  {
  }

  /** A tag is read when no closing bracket follows it. */
  lemma ScanCommand(name: string, rest: string, buffer: string, unicode: bool)
    requires TagOf(name).Some? && (rest == "" || rest[0] != '}')
    ensures Scan("{" + name + "}" + rest, buffer, unicode)
         == Prepend(Flushed(buffer, unicode),
                    var tag := TagOf(name).value;
                    if tag.Mode? then Scan(rest, "", tag.unicode) else Prepend([tag.token], Scan(rest, "", unicode)))
  {
    var text := "{" + name + "}" + rest;
    NamesArePlain(name);
    assert text[1] == name[0] && text[2..] == name[1..] + "}" + rest;
    ScanTagName(name[1..], [name[0]], rest);
    assert [name[0]] + name[1..] == name;
  }

  lemma PrintTaggedOpens(ts: seq<Token>)
    ensures PrintTagged(ts) == "" || PrintTagged(ts)[0] == '{'
  {
  }

  lemma EscapedOpens(s: string, rest: string)
    requires s != "" && s[0] != '}'
    ensures Escaped(s) + rest != "" && (Escaped(s) + rest)[0] != '}'
  {
  }

  /** A tagged list is read back behind any buffer. */
  lemma {:induction false} ScanTagged(ts: seq<Token>, buffer: string, unicode: bool)
    requires AllPlain(ts)
    ensures Scan(PrintTagged(ts), buffer, unicode) == Ok(Flushed(buffer, unicode) + ts)
    decreases |ts|
  {
    if ts == [] {
      assert Flushed(buffer, unicode) + ts == Flushed(buffer, unicode);
    } else {
      var t, rest := ts[0], PrintTagged(ts[1..]);
      assert Plain(t) && AllPlain(ts[1..]);
      PrintTaggedOpens(ts[1..]);
      TagTextIsRead(t);
      assert PrintTagged(ts) == "{" + TagText(t) + "}" + (BufferText(t) + rest);
      assert [t] + ts[1..] == ts;
      if HasBuffer(t) {
        EscapedOpens(t.buffer, rest);
        ScanCommand(TagText(t), BufferText(t) + rest, buffer, unicode);
        ScanEscaped(t.buffer, rest, "", t.Unicode?);
        assert "" + t.buffer == t.buffer;
        ScanTagged(ts[1..], t.buffer, t.Unicode?);
      } else {
        assert BufferText(t) + rest == rest;
        ScanCommand(TagText(t), rest, buffer, unicode);
        ScanTagged(ts[1..], "", unicode);
        assert [] + ts[1..] == ts[1..];
      }
    }
  }

  /** Printing a list of the image and tokenizing the text gives the list back. */
  lemma RoundTrip(ts: seq<Token>)
    requires InImage(ts)
    ensures Tokenized(Print(ts)) == Ok(ts)
  {
    if ts != [] && ts[0].Sequence? {
      ScanEscaped(ts[0].buffer, PrintTagged(ts[1..]), "", false);
      assert "" + ts[0].buffer == ts[0].buffer;
      ScanTagged(ts[1..], ts[0].buffer, false);
      assert [ts[0]] + ts[1..] == ts;
    } else {
      assert forall k | 0 <= k < |ts| :: ts[k] == if k == 0 then ts[0] else ts[1..][k - 1];
      ScanTagged(ts, "", false);
      assert [] + ts == ts;
    }
  }

  // ---- Nothing else comes out ----

  /** Behind a tag, text cannot begin with a closing bracket. */
  predicate BehindTag(input: string, buffer: string) {
    if buffer == "" then input == "" || input[0] != '}' else buffer[0] != '}'
  }

  lemma PlainAppend(ts: seq<Token>, us: seq<Token>)
    requires AllPlain(ts) && AllPlain(us)
    ensures AllPlain(ts + us)
  {
  }

  lemma {:induction false} BehindTagIsPlain(input: string, buffer: string, unicode: bool)
    requires BehindTag(input, buffer)
    ensures Scan(input, buffer, unicode).Ok? ==> AllPlain(Scan(input, buffer, unicode).value)
    decreases |input|
  {
    if input == "" {
    } else if input[0] == '{' {
      if |input| > 1 && input[1] == '{' {
        BehindTagIsPlain(input[2..], buffer + "{", unicode);
      } else if |input| > 1 {
        TagThenPlain(input, unicode);
        if ScanBehindTag(input, unicode).Ok? {
          PlainAppend(Flushed(buffer, unicode), ScanBehindTag(input, unicode).value);
        }
      }
    } else if input[0] == '}' {
      if |input| > 1 && input[1] == '}' {
        BehindTagIsPlain(input[2..], buffer + "}", unicode);
      }
    } else {
      BehindTagIsPlain(input[1..], buffer + [input[0]], unicode);
    }
  }

  lemma {:induction false} TagThenPlain(input: string, unicode: bool)
    requires |input| > 1
    ensures ScanBehindTag(input, unicode).Ok? ==> AllPlain(ScanBehindTag(input, unicode).value)
    decreases |input|, 0
  {
    var scanned := ScanTag(input[2..], [input[1]]);
    if scanned.Ok? {
      ScanTagShrinks(input[2..], [input[1]]);
      var (tag, rest) := scanned.value;
      match TagOf(tag)
      case None =>
      case Some(Mode(u)) => BehindTagIsPlain(rest, "", u);
      case Some(Press(token)) =>
        BehindTagIsPlain(rest, "", unicode);
        if Scan(rest, "", unicode).Ok? {
          PlainAppend([token], Scan(rest, "", unicode).value);
        }
    }
  }

  lemma {:induction false} StartIsInImage(input: string, buffer: string)
    ensures Scan(input, buffer, false).Ok? ==> InImage(Scan(input, buffer, false).value)
    decreases |input|
  {
    if input == "" {
    } else if input[0] == '{' {
      if |input| > 1 && input[1] == '{' {
        StartIsInImage(input[2..], buffer + "{");
      } else if |input| > 1 {
        TagThenPlain(input, false);
        if ScanBehindTag(input, false).Ok? {
          var ts := ScanBehindTag(input, false).value;
          assert buffer == "" ==> [] + ts == ts;
          assert buffer != "" ==> ([Sequence(buffer)] + ts)[1..] == ts;
        }
      }
    } else if input[0] == '}' {
      if |input| > 1 && input[1] == '}' {
        StartIsInImage(input[2..], buffer + "}");
      }
    } else {
      StartIsInImage(input[1..], buffer + [input[0]]);
    }
  }

  /** The tokenizer's results are exactly the lists of the image. */
  lemma ImageIsExact(ts: seq<Token>)
    ensures (exists input :: Tokenized(input) == Ok(ts)) <==> InImage(ts)
  {
    if input :| Tokenized(input) == Ok(ts) {
      StartIsInImage(input, "");
    }
    if InImage(ts) {
      RoundTrip(ts);
    }
  }

  /** Printing what was tokenized gives a text with the same tokens. */
  lemma PrintedIsEquivalent(input: string)
    requires Tokenized(input).Ok?
    ensures Tokenized(Print(Tokenized(input).value)) == Tokenized(input)
  {
    StartIsInImage(input, "");
    RoundTrip(Tokenized(input).value);
  }

  // ---- The language ----

  /** An input is a text whose characters may stand between commands. */
  datatype Piece = Text(c: char) | Command(name: string)

  function PieceText(p: Piece): string {
    match p
    case Text(c) => EscapedChar(c)
    case Command(name) => "{" + name + "}"
  }

  function Written(ps: seq<Piece>): string {
    if ps == [] then "" else PieceText(ps[0]) + Written(ps[1..])
  }

  /** Only known names, and no closing bracket right behind a command, whatever follows the pieces. */
  predicate Legal(ps: seq<Piece>, behind: string) {
    ps == []
    || (Legal(ps[1..], behind)
        && (ps[0].Command? ==>
              var rest := Written(ps[1..]) + behind;
              TagOf(ps[0].name).Some? && (rest == "" || rest[0] != '}')))
  }

  /** Text is gathered up to the next command; mode commands say what the text after them becomes. */
  function Meant(ps: seq<Piece>, buffer: string, unicode: bool): seq<Token> {
    if ps == [] then Flushed(buffer, unicode)
    else
      match ps[0]
      case Text(c) => Meant(ps[1..], buffer + [c], unicode)
      case Command(name) =>
        Flushed(buffer, unicode)
        + match TagOf(name)
          case Some(Mode(u)) => Meant(ps[1..], "", u)
          case Some(Press(token)) => [token] + Meant(ps[1..], "", unicode)
          case None => []
  }

  /** What is wrong with the very start of a text: a bracket without its double or partner, or a tag. */
  function Offence(bad: string): Option<ParseError> {
    if bad == "" then None
    else if bad[0] == '}' then
      if |bad| > 1 && bad[1] == '}' then None else Some(UnmatchedClose)
    else if bad[0] == '{' then
      if |bad| == 1 then Some(UnmatchedOpen)
      else if bad[1] == '{' then None
      else
        match ScanTag(bad[2..], [bad[1]])
        case Err(e) => Some(e)
        case Ok((tag, _)) => if TagOf(tag).None? then Some(UnknownTag(tag)) else None
    else None
  }

  /** What ends the pieces ends the scan. */
  lemma ScanEnds(bad: string, buffer: string, unicode: bool)
    requires bad == "" || Offence(bad).Some?
    ensures Scan(bad, buffer, unicode) == if bad == "" then Ok(Flushed(buffer, unicode)) else Err(Offence(bad).value)
  {
  }

  lemma NoPieces(bad: string)
    ensures Legal([], bad) && Written([]) + bad == bad
  {
  }

  lemma WrittenInTwoParts(ps: seq<Piece>, bad: string)
    requires ps != []
    ensures Written(ps) + bad == PieceText(ps[0]) + (Written(ps[1..]) + bad)
  {
  }

  lemma {:induction false} ScanWritten(ps: seq<Piece>, bad: string, buffer: string, unicode: bool)
    requires Legal(ps, bad) && (bad == "" || Offence(bad).Some?)
    ensures Scan(Written(ps) + bad, buffer, unicode)
         == if bad == "" then Ok(Meant(ps, buffer, unicode)) else Err(Offence(bad).value)
    decreases |ps|
  {
    hide Offence, Scan, ScanTag, ScanBehindTag, TagOf, Flushed, Written, EscapedChar;
    if ps == [] {
      NoPieces(bad);
      ScanEnds(bad, buffer, unicode);
    } else {
      var rest := Written(ps[1..]) + bad;
      WrittenInTwoParts(ps, bad);
      match ps[0]
      case Text(c) =>
        ScanEscapedChar(c, rest, buffer, unicode);
        ScanWritten(ps[1..], bad, buffer + [c], unicode);
      case Command(name) =>
        ScanCommand(name, rest, buffer, unicode);
        match TagOf(name).value
        case Mode(u) => ScanWritten(ps[1..], bad, "", u);
        case Press(token) => ScanWritten(ps[1..], bad, "", unicode);
    }
  }

  /** A tag that was read without escaped brackets stands in the input as it is. */
  lemma {:induction false} TagIsThere(input: string, tag: string)
    requires ScanTag(input, tag).Ok? && NoBrackets(ScanTag(input, tag).value.0)
    ensures var (name, rest) := ScanTag(input, tag).value;
            tag <= name && input == name[|tag|..] + "}" + rest
    decreases |input|
  {
    if input[0] == '{' {
      EscapedBracketStays(input[2..], tag, '{');
      assert false;
    } else if input[0] == '}' && |input| > 1 && input[1] == '}' {
      EscapedBracketStays(input[2..], tag, '}');
      assert false;
    } else if input[0] != '}' {
      TagIsThere(input[1..], tag + [input[0]]);
    }
  }

  lemma {:induction false} ScanTagExtends(input: string, tag: string)
    ensures ScanTag(input, tag).Ok? ==> tag <= ScanTag(input, tag).value.0
    decreases |input|
  {
    if input == "" {
    } else {
      if (input[0] == '{' || input[0] == '}') && |input| > 1 && input[1] == input[0] {
        ScanTagExtends(input[2..], tag + [input[0]]);
      } else if input[0] != '{' && input[0] != '}' {
        ScanTagExtends(input[1..], tag + [input[0]]);
      }
    }
  }

  lemma EscapedBracketStays(input: string, tag: string, c: char)
    requires c == '{' || c == '}'
    requires ScanTag(input, tag + [c]).Ok?
    ensures !NoBrackets(ScanTag(input, tag + [c]).value.0)
  {
    ScanTagExtends(input, tag + [c]);
    assert ScanTag(input, tag + [c]).value.0[|tag|] == (tag + [c])[|tag|];
  }

  /** Every input is a sequence of legal pieces up to its end or to the first offence. */
  lemma {:induction false} Split(input: string, buffer: string, unicode: bool) returns (ps: seq<Piece>, bad: string)
    ensures Legal(ps, bad) && Written(ps) + bad == input
    ensures match Scan(input, buffer, unicode)
            case Ok(_) => bad == ""
            case Err(e) => Offence(bad) == Some(e)
    decreases |input|
  {
    hide TagOf, Legal, Written, ScanTag, ScanBehindTag, Flushed;
    if input == "" || Offence(input).Some? {
      ps, bad := [], input;
      NoPieces(bad);
      ScanEnds(bad, buffer, unicode);
    } else if input[0] == '{' && input[1] != '{' {
      ps, bad := SplitBehindTag(input, unicode);
    } else {
      var n := |EscapedChar(input[0])|;
      ps, bad := Split(input[n..], buffer + [input[0]], unicode);
      ps := OneMorePiece(Text(input[0]), ps, bad);
      assert input == EscapedChar(input[0]) + input[n..];
    }
  }

  lemma {:induction false} SplitBehindTag(input: string, unicode: bool) returns (ps: seq<Piece>, bad: string)
    requires |input| > 1 && input[0] == '{' && input[1] != '{' && Offence(input).None?
    ensures Legal(ps, bad) && Written(ps) + bad == input
    ensures match ScanBehindTag(input, unicode)
            case Ok(_) => bad == ""
            case Err(e) => Offence(bad) == Some(e)
    decreases |input|, 0
  {
    hide TagOf, Legal, Written, Scan, ScanTag;
    var (name, behind) := ScanTag(input[2..], [input[1]]).value;
    ScanTagShrinks(input[2..], [input[1]]);
    NamesArePlain(name);
    TagIsThere(input[2..], [input[1]]);
    var u := match TagOf(name).value case Mode(u) => u case Press(_) => unicode;
    ps, bad := Split(behind, "", u);
    ps := OneMorePiece(Command(name), ps, bad);
    assert input == "{" + name + "}" + behind;
  }

  lemma OneMorePiece(p: Piece, ps: seq<Piece>, bad: string) returns (qs: seq<Piece>)
    requires Legal(ps, bad)
    requires p.Command? ==>
               TagOf(p.name).Some? && (Written(ps) + bad == "" || (Written(ps) + bad)[0] != '}')
    ensures Legal(qs, bad)
    ensures Written(qs) + bad == PieceText(p) + (Written(ps) + bad)
  {
    qs := [p] + ps;
    assert qs[1..] == ps;
    WrittenInTwoParts(qs, bad);
  }

  /** The tokenizer accepts exactly the inputs written from legal pieces, and gives what they mean. */
  lemma AcceptedIffWritten(input: string, ts: seq<Token>)
    ensures Tokenized(input) == Ok(ts)
            <==> exists ps :: Legal(ps, "") && Written(ps) == input && Meant(ps, "", false) == ts
  {
    if Tokenized(input) == Ok(ts) {
      var ps, bad := Split(input, "", false);
      assert Written(ps) + "" == Written(ps);
      ScanWritten(ps, "", "", false);
    }
    if ps :| Legal(ps, "") && Written(ps) == input && Meant(ps, "", false) == ts {
      assert Written(ps) + "" == Written(ps);
      ScanWritten(ps, "", "", false);
    }
  }

  /** It fails exactly with the first offence behind legal pieces. */
  lemma ErrorIsFirstOffence(input: string, e: ParseError)
    ensures Tokenized(input) == Err(e)
            <==> exists ps, bad :: Legal(ps, bad) && Written(ps) + bad == input && Offence(bad) == Some(e)
  {
    if Tokenized(input) == Err(e) {
      var ps, bad := Split(input, "", false);
    }
    if ps, bad :| Legal(ps, bad) && Written(ps) + bad == input && Offence(bad) == Some(e) {
      ScanWritten(ps, bad, "", false);
    }
  }

  // ---- Evaluation ----

  datatype Action = Click(c: char) | Type(s: string) | Up(key: Key) | Down(key: Key)

  function Clicks(s: string): seq<Action> {
    if s == "" then [] else Clicks(s[..|s| - 1]) + [Click(s[|s| - 1])]
  }

  function ActionsOf(t: Token): seq<Action> {
    match t
    case Sequence(buffer) => Clicks(buffer)
    case Unicode(buffer) => [Type(buffer)]
    case KeyUp(key) => [Up(key)]
    case KeyDown(key) => [Down(key)]
  }

  function Actions(ts: seq<Token>): seq<Action> {
    if ts == [] then [] else Actions(ts[..|ts| - 1]) + ActionsOf(ts[|ts| - 1])
  }

  /** The keys pressed for an input; nothing is pressed for an input that does not parse. */
  method Eval(input: string) returns (error: Option<ParseError>, actions: seq<Action>)
    ensures match Tokenized(input)
            case Ok(ts) => error == None && actions == Actions(ts)
            case Err(e) => error == Some(e) && actions == []
  {
    actions := [];
    var tokens := Tokenize(input);
    if tokens.Err? {
      return Some(tokens.error), [];
    }
    var ts := tokens.value;
    for k := 0 to |ts|
      invariant actions == Actions(ts[..k])
    {
      assert ts[..k + 1][..k] == ts[..k];
      match ts[k] {
        case Sequence(buffer) =>
          ghost var before := actions;
          for j := 0 to |buffer|
            invariant actions == before + Clicks(buffer[..j])
          {
            assert buffer[..j + 1][..j] == buffer[..j];
            actions := actions + [Click(buffer[j])];
          }
          assert buffer[..|buffer|] == buffer;
        case Unicode(buffer) => actions := actions + [Type(buffer)];
        case KeyUp(key) => actions := actions + [Up(key)];
        case KeyDown(key) => actions := actions + [Down(key)];
      }
    }
    assert ts[..|ts|] == ts;
    return None, actions;
  }

  // ---- What the tags and actions mean ----

  /** A tag in front of a text: what the tag presses, and what the text becomes. */
  lemma TagThenText(name: string, c: char, ts: seq<Token>)
    requires TagOf(name).Some? && c != '{' && c != '}'
    requires ts == match TagOf(name).value
                   case Mode(u) => [if u then Unicode([c]) else Sequence([c])]
                   case Press(token) => [token, Sequence([c])]
    ensures Tokenized("{" + name + "}" + [c]) == Ok(ts)
  {
    var tag := TagOf(name).value;
    var u := tag.Mode? && tag.unicode;
    ScanCommand(name, [c], "", false);
    assert [c][1..] == "" && "" + [c] == [c];
    assert Scan([c], "", u) == Scan("", [c], u) == Ok(Flushed([c], u));
    if tag.Mode? {
      PrependTwice([], [], Ok(Flushed([c], u)));
    } else {
      assert [tag.token] + [Sequence([c])] == ts;
      PrependTwice([], [], Ok(ts));
    }
  }

  /** The tags for keys. */
  lemma KeyTagsPress(c: char)
    requires c != '{' && c != '}'
    ensures Tokenized("{" + "+SHIFT" + "}" + [c]) == Ok([KeyDown(Shift), Sequence([c])])
    ensures Tokenized("{" + "-SHIFT" + "}" + [c]) == Ok([KeyUp(Shift), Sequence([c])])
    ensures Tokenized("{" + "+CTRL" + "}" + [c]) == Ok([KeyDown(Control), Sequence([c])])
    ensures Tokenized("{" + "-CTRL" + "}" + [c]) == Ok([KeyUp(Control), Sequence([c])])
    ensures Tokenized("{" + "+META" + "}" + [c]) == Ok([KeyDown(Meta), Sequence([c])])
    ensures Tokenized("{" + "-META" + "}" + [c]) == Ok([KeyUp(Meta), Sequence([c])])
    ensures Tokenized("{" + "+ALT" + "}" + [c]) == Ok([KeyDown(Alt), Sequence([c])])
    ensures Tokenized("{" + "-ALT" + "}" + [c]) == Ok([KeyUp(Alt), Sequence([c])])
  {
    hide Tokenized;
    TagThenText("+SHIFT", c, [KeyDown(Shift), Sequence([c])]);
    TagThenText("-SHIFT", c, [KeyUp(Shift), Sequence([c])]);
    TagThenText("+CTRL", c, [KeyDown(Control), Sequence([c])]);
    TagThenText("-CTRL", c, [KeyUp(Control), Sequence([c])]);
    TagThenText("+META", c, [KeyDown(Meta), Sequence([c])]);
    TagThenText("-META", c, [KeyUp(Meta), Sequence([c])]);
    TagThenText("+ALT", c, [KeyDown(Alt), Sequence([c])]);
    TagThenText("-ALT", c, [KeyUp(Alt), Sequence([c])]);
  }

  /** The tags for the two kinds of text. */
  lemma ModeTagsSet(c: char)
    requires c != '{' && c != '}'
    ensures Tokenized("{" + "+UNICODE" + "}" + [c]) == Ok([Unicode([c])])
    ensures Tokenized("{" + "-UNICODE" + "}" + [c]) == Ok([Sequence([c])])
  {
    hide Tokenized;
    TagThenText("+UNICODE", c, [Unicode([c])]);
    TagThenText("-UNICODE", c, [Sequence([c])]);
  }

  /** A keyboard: the keys held down and what was entered, key by key or as one text. */
  datatype Keyboard = Keyboard(held: set<Key>, entered: seq<string>)

  function Act(k: Keyboard, a: Action): Keyboard {
    match a
    case Click(c) => k.(entered := k.entered + [[c]])
    case Type(s) => k.(entered := k.entered + [s])
    case Down(key) => k.(held := k.held + {key})
    case Up(key) => k.(held := k.held - {key})
  }

  function ActAll(k: Keyboard, acts: seq<Action>): Keyboard {
    if acts == [] then k else Act(ActAll(k, acts[..|acts| - 1]), acts[|acts| - 1])
  }

  /** The last token about a key presses it. */
  predicate LeftDown(ts: seq<Token>, key: Key) {
    exists j | 0 <= j < |ts| :: ts[j] == KeyDown(key) && forall i | j < i < |ts| :: ts[i] != KeyUp(key)
  }

  function Chars(s: string): seq<string> {
    if s == "" then [] else Chars(s[..|s| - 1]) + [[s[|s| - 1]]]
  }

  /** A plain sequence is entered key by key, a unicode one at once. */
  function Entered(ts: seq<Token>): seq<string> {
    if ts == [] then []
    else
      Entered(ts[..|ts| - 1])
      + match ts[|ts| - 1]
        case Sequence(buffer) => Chars(buffer)
        case Unicode(buffer) => [buffer]
        case _ => []
  }

  lemma {:induction false} ActAppend(k: Keyboard, a: seq<Action>, b: seq<Action>)
    ensures ActAll(k, a + b) == ActAll(ActAll(k, a), b)
    decreases |b|
  {
    if b == [] {
      assert a + b == a;
    } else {
      assert (a + b)[..|a + b| - 1] == a + b[..|b| - 1];
      ActAppend(k, a, b[..|b| - 1]);
    }
  }

  lemma {:induction false} ClicksEnter(k: Keyboard, s: string)
    ensures ActAll(k, Clicks(s)) == k.(entered := k.entered + Chars(s))
    decreases |s|
  {
    if s == "" {
      assert k.entered + [] == k.entered;
    } else {
      ClicksEnter(k, s[..|s| - 1]);
      assert Clicks(s)[..|Clicks(s)| - 1] == Clicks(s[..|s| - 1]);
    }
  }

  lemma ActOfToken(k: Keyboard, t: Token)
    ensures ActAll(k, ActionsOf(t))
         == match t
            case Sequence(buffer) => k.(entered := k.entered + Chars(buffer))
            case Unicode(buffer) => k.(entered := k.entered + [buffer])
            case KeyDown(key) => k.(held := k.held + {key})
            case KeyUp(key) => k.(held := k.held - {key})
  {
    if t.Sequence? {
      ClicksEnter(k, t.buffer);
    } else {
      assert |ActionsOf(t)| == 1 && ActionsOf(t)[..0] == [];
      assert ActAll(k, []) == k;
    }
  }

  lemma LeftDownOneMore(ts: seq<Token>, t: Token, key: Key)
    ensures LeftDown(ts + [t], key) <==> t == KeyDown(key) || (t != KeyUp(key) && LeftDown(ts, key))
  {
    var all := ts + [t];
    if LeftDown(ts, key) && t != KeyUp(key) {
      var j :| 0 <= j < |ts| && ts[j] == KeyDown(key) && forall i | j < i < |ts| :: ts[i] != KeyUp(key);
      assert all[j] == KeyDown(key) && forall i | j < i < |all| :: all[i] != KeyUp(key);
    }
    if t == KeyDown(key) {
      assert all[|ts|] == KeyDown(key);
    }
    if LeftDown(all, key) && t != KeyDown(key) {
      var j :| 0 <= j < |all| && all[j] == KeyDown(key) && forall i | j < i < |all| :: all[i] != KeyUp(key);
      assert all[|ts|] != KeyUp(key);
      assert ts[j] == KeyDown(key) && forall i | j < i < |ts| :: ts[i] == all[i] != KeyUp(key);
    }
  }

  /** Evaluation leaves exactly those keys down that the input presses and does not release after, and
      enters the texts of its tokens in order. */
  lemma {:induction false} EvalLeaves(ts: seq<Token>, key: Key)
    ensures var k := ActAll(Keyboard({}, []), Actions(ts));
            (key in k.held <==> LeftDown(ts, key)) && k.entered == Entered(ts)
    decreases |ts|
  {
    if ts == [] {
    } else {
      var before, t := ts[..|ts| - 1], ts[|ts| - 1];
      EvalLeaves(before, key);
      ActAppend(Keyboard({}, []), Actions(before), ActionsOf(t));
      ActOfToken(ActAll(Keyboard({}, []), Actions(before)), t);
      LeftDownOneMore(before, t, key);
      assert before + [t] == ts;
      assert !HasBuffer(t) ==> Entered(before) + [] == Entered(before);
    }
  }
}
