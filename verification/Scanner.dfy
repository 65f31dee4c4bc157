/**
 The character scanner that bounds nesting before a body is parsed, against the grammar of JSON text
 (RFC 8259 sections 2 to 7), and the node count after it.
 */
module Scanner {

  // ----- the grammar -----

  /** One character of a string: plain, escaped by a backslash, or a code point in hexadecimal. */
  datatype Piece = Plain(c: char) | Escaped(c: char) | Code(hex: string)

  datatype Number = Number(minus: bool, whole: string, fraction: string, exponent: string)

  datatype Text =
    | Null | True | False
    | Num(number: Number)
    | Str(body: seq<Piece>)
    | Arr(blank: string, items: seq<Item>)
    | Obj(blank: string, members: seq<Member>)

  /** A value between white space. */
  datatype Item = Item(before: string, value: Text, after: string)

  datatype Member = Member(before: string, name: seq<Piece>, between: string, item: Item)

  predicate Space(s: string)
  {
    forall i :: 0 <= i < |s| ==> s[i] == ' ' || s[i] == '\t' || s[i] == '\n' || s[i] == '\r'
  }

  predicate Digit(c: char) { '0' <= c <= '9' }

  predicate AllDigits(s: string)
  {
    s != "" && forall i :: 0 <= i < |s| ==> Digit(s[i])
  }

  predicate HexDigit(c: char) { Digit(c) || 'a' <= c <= 'f' || 'A' <= c <= 'F' }

  predicate PieceOk(p: Piece)
  {
    match p
    case Plain(c) => c as int >= 0x20 && c != '"' && c != '\\'
    case Escaped(c) => c in "\"\\/bfnrt"
    case Code(hex) => |hex| == 4 && forall i :: 0 <= i < 4 ==> HexDigit(hex[i])
  }

  predicate ExponentOk(e: string)
  {
    e == "" || (|e| >= 2 && (e[0] == 'e' || e[0] == 'E')
                && (AllDigits(e[1..]) || ((e[1] == '+' || e[1] == '-') && AllDigits(e[2..]))))
  }

  predicate NumberOk(n: Number)
  {
    && AllDigits(n.whole) && (|n.whole| > 1 ==> n.whole[0] != '0')
    && (n.fraction == "" || (|n.fraction| >= 2 && n.fraction[0] == '.' && AllDigits(n.fraction[1..])))
    && ExponentOk(n.exponent)
  }

  predicate Grammatical(t: Text)
  {
    match t
    case Num(n) => NumberOk(n)
    case Str(body) => BodyOk(body)
    case Arr(blank, items) => Space(blank) && forall i :: 0 <= i < |items| ==> ItemOk(items[i])
    case Obj(blank, members) => Space(blank) && forall i :: 0 <= i < |members| ==> MemberOk(members[i])
    case _ => true
  }

  predicate BodyOk(body: seq<Piece>)
  {
    forall i :: 0 <= i < |body| ==> PieceOk(body[i])
  }

  predicate ItemOk(x: Item)
  {
    Space(x.before) && Grammatical(x.value) && Space(x.after)
  }

  predicate MemberOk(m: Member)
  {
    Space(m.before) && BodyOk(m.name) && Space(m.between) && ItemOk(m.item)
  }

  // ----- its characters -----

  function PieceText(p: Piece): string
  {
    match p
    case Plain(c) => [c]
    case Escaped(c) => ['\\', c]
    case Code(hex) => "\\u" + hex
  }

  function BodyText(body: seq<Piece>): string
  {
    if body == [] then "" else BodyText(body[..|body| - 1]) + PieceText(body[|body| - 1])
  }

  function Quote(body: seq<Piece>): string
  {
    "\"" + BodyText(body) + "\""
  }

  function NumberText(n: Number): string
  {
    (if n.minus then "-" else "") + n.whole + n.fraction + n.exponent
  }

  /** The text of a value: an empty array or object holds only white space. */
  function Write(t: Text): string
  {
    match t
    case Null => "null"
    case True => "true"
    case False => "false"
    case Num(n) => NumberText(n)
    case Str(body) => Quote(body)
    case Arr(blank, items) => "[" + (if items == [] then blank else WriteItems(items)) + "]"
    case Obj(blank, members) => "{" + (if members == [] then blank else WriteMembers(members)) + "}"
  }

  function WriteItem(x: Item): string
  {
    x.before + Write(x.value) + x.after
  }

  function WriteItems(items: seq<Item>): string
  {
    if items == [] then ""
    else (if |items| == 1 then "" else WriteItems(items[..|items| - 1]) + ",") + WriteItem(items[|items| - 1])
  }

  function WriteMember(m: Member): string
  {
    m.before + Quote(m.name) + m.between + ":" + WriteItem(m.item)
  }

  function WriteMembers(members: seq<Member>): string
  {
    if members == [] then ""
    else
      (if |members| == 1 then "" else WriteMembers(members[..|members| - 1]) + ",")
      + WriteMember(members[|members| - 1])
  }

  // ----- its nesting -----

  function Max(a: int, b: int): int { if a >= b then a else b }

  function Height(t: Text): nat
  {
    match t
    case Arr(_, items) => 1 + HeightOfItems(items)
    case Obj(_, members) => 1 + HeightOfMembers(members)
    case _ => 0
  }

  function HeightOfItems(items: seq<Item>): nat
  {
    if items == [] then 0 else Max(HeightOfItems(items[..|items| - 1]), Height(items[|items| - 1].value))
  }

  function HeightOfMembers(members: seq<Member>): nat
  {
    if members == [] then 0
    else Max(HeightOfMembers(members[..|members| - 1]), Height(members[|members| - 1].item.value))
  }

  // ----- the scanner -----

  datatype Scan = Scan(depth: int, peak: int, quoted: bool, escaped: bool)

  function Step(s: Scan, c: char): Scan
  {
    if s.quoted then
      if s.escaped then s.(escaped := false)
      else if c == '\\' then s.(escaped := true)
      else if c == '"' then s.(quoted := false)
      else s
    else if c == '"' then s.(quoted := true)
    else if c == '[' || c == '{' then s.(depth := s.depth + 1, peak := Max(s.peak, s.depth + 1))
    else if c == ']' || c == '}' then s.(depth := s.depth - 1)
    else s
  }

  function Run(s: Scan, text: string): Scan
  {
    if text == "" then s else Step(Run(s, text[..|text| - 1]), text[|text| - 1])
  }

  const BEGIN := Scan(0, 0, false, false)

  lemma {:induction false} RunAppend(s: Scan, a: string, b: string)
    ensures Run(s, a + b) == Run(Run(s, a), b)
  {
    if b == "" {
      assert a + b == a;
    } else {
      assert (a + b)[..|a + b| - 1] == a + b[..|b| - 1];
      RunAppend(s, a, b[..|b| - 1]);
    }
  }

  /** Text outside strings without any bracket or quote leaves the scanner as it was. */
  predicate Neutral(text: string)
  {
    forall i :: 0 <= i < |text| ==> text[i] != '"' && text[i] != '[' && text[i] != '{' && text[i] != ']' && text[i] != '}'
  }

  lemma {:induction false} NeutralRuns(s: Scan, text: string)
    requires !s.quoted && Neutral(text)
    ensures Run(s, text) == s
  {
    if text != "" {
      NeutralRuns(s, text[..|text| - 1]);
    }
  }

  /** Inside a string, a piece never ends it: an escaped quote or a bracket does not count. */
  lemma PieceRuns(s: Scan, p: Piece)
    requires s.quoted && !s.escaped && PieceOk(p)
    ensures Run(s, PieceText(p)) == s
  {
    match p
    case Plain(c) => OneStep(s, c);
    case Escaped(c) =>
      RunAppend(s, "\\", [c]);
      OneStep(s, '\\');
      OneStep(Step(s, '\\'), c);
      assert ['\\', c] == "\\" + [c];
    case Code(hex) =>
      RunAppend(s, "\\", "u");
      RunAppend(s, "\\u", hex);
      OneStep(s, '\\');
      OneStep(Step(s, '\\'), 'u');
      assert "\\" + "u" == "\\u";
      HexRuns(s, hex);
  }

  lemma OneStep(s: Scan, c: char)
    ensures Run(s, [c]) == Step(s, c)
  {
    assert [c][..0] == "";
    assert Run(s, [c][..0]) == s;
  }

  lemma {:induction false} HexRuns(s: Scan, hex: string)
    requires s.quoted && !s.escaped && forall i :: 0 <= i < |hex| ==> HexDigit(hex[i])
    ensures Run(s, hex) == s
  {
    if hex != "" {
      HexRuns(s, hex[..|hex| - 1]);
      assert HexDigit(hex[|hex| - 1]);
    }
  }

  lemma {:induction false} BodyRuns(s: Scan, body: seq<Piece>)
    requires s.quoted && !s.escaped && BodyOk(body)
    ensures Run(s, BodyText(body)) == s
  {
    if body != [] {
      var n := |body| - 1;
      BodyRuns(s, body[..n]);
      RunAppend(s, BodyText(body[..n]), PieceText(body[n]));
      PieceRuns(s, body[n]);
    }
  }

  lemma QuoteRuns(s: Scan, body: seq<Piece>)
    requires !s.quoted && !s.escaped && BodyOk(body)
    ensures Run(s, Quote(body)) == s
  {
    var inside := Step(s, '"');
    OneStep(s, '"');
    RunAppend(s, "\"", BodyText(body));
    BodyRuns(inside, body);
    RunAppend(s, "\"" + BodyText(body), "\"");
    OneStep(inside, '"');
  }

  lemma SpaceIsNeutral(text: string)
    requires Space(text)
    ensures Neutral(text)
  {
  }

  lemma NumberIsNeutral(n: Number)
    requires NumberOk(n)
    ensures Neutral(NumberText(n))
  {
    DigitsAreNeutral(n.whole);
    assert Neutral(n.fraction) by {
      if n.fraction != "" {
        DigitsAreNeutral(n.fraction[1..]);
        assert n.fraction == "." + n.fraction[1..];
      }
    }
    ExponentIsNeutral(n.exponent);
  }

  lemma DigitsAreNeutral(s: string)
    requires AllDigits(s)
    ensures Neutral(s)
  {
  }

  lemma ExponentIsNeutral(e: string)
    requires ExponentOk(e)
    ensures Neutral(e)
  {
    if e != "" {
      if AllDigits(e[1..]) {
        DigitsAreNeutral(e[1..]);
        assert e == [e[0]] + e[1..];
      } else {
        DigitsAreNeutral(e[2..]);
        assert e == [e[0], e[1]] + e[2..];
      }
    }
  }

  /** Scanning a value outside strings only raises the peak, to the value's height above the present depth. */
  ghost predicate Passes(s: Scan, text: string, height: nat)
  {
    Run(s, text) == s.(peak := Max(s.peak, s.depth + height))
  }

  lemma {:induction false} ValueRuns(s: Scan, t: Text)
    requires !s.quoted && !s.escaped && s.depth <= s.peak && Grammatical(t)
    ensures Passes(s, Write(t), Height(t))
    decreases t, 2, 0
  {
    hide Run;
    match t
    case Null => NeutralRuns(s, "null");
    case True => NeutralRuns(s, "true");
    case False => NeutralRuns(s, "false");
    case Num(n) =>
      NumberIsNeutral(n);
      NeutralRuns(s, NumberText(n));
    case Str(body) => QuoteRuns(s, body);
    case Arr(blank, items) =>
      OneStep(s, '[');
      var inside := Step(s, '[');
      if items == [] {
        SpaceIsNeutral(blank);
        NeutralRuns(inside, blank);
        BracketsRun(s, "[", blank, "]", 0);
      } else {
        ItemsRun(inside, items);
        BracketsRun(s, "[", WriteItems(items), "]", HeightOfItems(items));
      }
    case Obj(blank, members) =>
      OneStep(s, '{');
      var inside := Step(s, '{');
      if members == [] {
        SpaceIsNeutral(blank);
        NeutralRuns(inside, blank);
        BracketsRun(s, "{", blank, "}", 0);
      } else {
        MembersRun(inside, members);
        BracketsRun(s, "{", WriteMembers(members), "}", HeightOfMembers(members));
      }
  }

  lemma BracketsRun(s: Scan, open: string, inner: string, close: string, height: nat)
    requires !s.quoted && s.depth <= s.peak && ((open == "[" && close == "]") || (open == "{" && close == "}"))
    requires Passes(Step(s, open[0]), inner, height)
    ensures Passes(s, open + inner + close, height + 1)
  {
    hide Run;
    RunAppend(s, open, inner);
    OneStep(s, open[0]);
    assert [open[0]] == open;
    RunAppend(s, open + inner, close);
    OneStep(Run(s, open + inner), close[0]);
    assert [close[0]] == close;
  }

  lemma AndThen(s: Scan, a: string, h: nat, b: string, g: nat)
    requires Passes(s, a, h) && Passes(Run(s, a), b, g)
    ensures Passes(s, a + b, if h >= g then h else g)
  {
    hide Run;
    RunAppend(s, a, b);
  }

  lemma NeutralPasses(s: Scan, text: string)
    requires !s.quoted && s.depth <= s.peak && Neutral(text)
    ensures Passes(s, text, 0)
  {
    hide Run, Neutral;
    NeutralRuns(s, text);
  }

  lemma {:induction false} ItemRuns(s: Scan, x: Item)
    requires !s.quoted && !s.escaped && s.depth <= s.peak && ItemOk(x)
    ensures Passes(s, WriteItem(x), Height(x.value))
    decreases x, 3, 0
  {
    hide Run, Write, Height, Space;
    SpaceIsNeutral(x.before);
    SpaceIsNeutral(x.after);
    NeutralPasses(s, x.before);
    ValueRuns(Run(s, x.before), x.value);
    AndThen(s, x.before, 0, Write(x.value), Height(x.value));
    NeutralPasses(Run(s, x.before + Write(x.value)), x.after);
    AndThen(s, x.before + Write(x.value), Height(x.value), x.after, 0);
  }

  lemma {:induction false} ItemsRun(s: Scan, items: seq<Item>)
    requires !s.quoted && !s.escaped && s.depth <= s.peak && forall i :: 0 <= i < |items| ==> ItemOk(items[i])
    ensures Passes(s, WriteItems(items), HeightOfItems(items))
    decreases items, 1, |items|
  {
    hide Run, WriteItem, ItemOk;
    if items == [] {
      NeutralPasses(s, "");
    } else {
      var n := |items| - 1;
      var head := if n == 0 then "" else WriteItems(items[..n]) + ",";
      if n > 0 {
        ItemsRun(s, items[..n]);
        NeutralPasses(Run(s, WriteItems(items[..n])), ",");
        AndThen(s, WriteItems(items[..n]), HeightOfItems(items[..n]), ",", 0);
      } else {
        NeutralPasses(s, "");
      }
      ItemRuns(Run(s, head), items[n]);
      AndThen(s, head, HeightOfItems(items[..n]), WriteItem(items[n]), Height(items[n].value));
    }
  }

  lemma {:induction false} MemberRuns(s: Scan, m: Member)
    requires !s.quoted && !s.escaped && s.depth <= s.peak && MemberOk(m)
    ensures Passes(s, WriteMember(m), Height(m.item.value))
    decreases m, 4, 0
  {
    hide Run, WriteItem, Height, Quote, Space, ItemOk, BodyOk;
    SpaceIsNeutral(m.before);
    SpaceIsNeutral(m.between);
    NeutralPasses(s, m.before);
    QuoteRuns(Run(s, m.before), m.name);
    AndThen(s, m.before, 0, Quote(m.name), 0);
    var named := m.before + Quote(m.name);
    NeutralPasses(Run(s, named), m.between);
    AndThen(s, named, 0, m.between, 0);
    NeutralPasses(Run(s, named + m.between), ":");
    AndThen(s, named + m.between, 0, ":", 0);
    ItemRuns(Run(s, named + m.between + ":"), m.item);
    AndThen(s, named + m.between + ":", 0, WriteItem(m.item), Height(m.item.value));
  }

  lemma {:induction false} MembersRun(s: Scan, members: seq<Member>)
    requires !s.quoted && !s.escaped && s.depth <= s.peak && forall i :: 0 <= i < |members| ==> MemberOk(members[i])
    ensures Passes(s, WriteMembers(members), HeightOfMembers(members))
    decreases members, 1, |members|
  {
    hide Run, WriteMember, MemberOk;
    if members == [] {
      NeutralPasses(s, "");
    } else {
      var n := |members| - 1;
      var head := if n == 0 then "" else WriteMembers(members[..n]) + ",";
      if n > 0 {
        MembersRun(s, members[..n]);
        NeutralPasses(Run(s, WriteMembers(members[..n])), ",");
        AndThen(s, WriteMembers(members[..n]), HeightOfMembers(members[..n]), ",", 0);
      } else {
        NeutralPasses(s, "");
      }
      MemberRuns(Run(s, head), members[n]);
      AndThen(s, head, HeightOfMembers(members[..n]), WriteMember(members[n]), Height(members[n].item.value));
    }
  }

  /**
   On any grammatical JSON text, whatever its strings hold, the scanner ends outside every bracket
   and string, and its peak depth is the nesting of the value.
   */
  lemma ScannerMeasuresNesting(x: Item)
    requires ItemOk(x)
    ensures Run(BEGIN, WriteItem(x)) == Scan(0, Height(x.value), false, false)
  {
    ItemRuns(BEGIN, x);
  }

  /** The loop over the characters; false stands for the depth limit's error. */
  method ScanDepth(text: string, maxDepth: nat) returns (ok: bool)
    ensures ok <==> Run(BEGIN, text).peak <= maxDepth
  {
    var depth := 0;
    var quoted, escaped := false, false;
    ghost var peak := 0;
    var n := 0;
    while n < |text|
      invariant 0 <= n <= |text| && Run(BEGIN, text[..n]) == Scan(depth, peak, quoted, escaped)
      invariant peak <= maxDepth
    {
      var c := text[n];
      assert text[..n + 1][..n] == text[..n];
      if quoted {
        if escaped {
          escaped := false;
        } else if c == '\\' {
          escaped := true;
        } else if c == '"' {
          quoted := false;
        }
      } else if c == '"' {
        quoted := true;
      } else if c == '[' || c == '{' {
        depth := depth + 1;
        peak := Max(peak, depth);
        if depth > maxDepth {
          PeakStays(text, n + 1);
          return false;
        }
      } else if c == ']' || c == '}' {
        depth := depth - 1;
      }
      n := n + 1;
    }
    assert text[..n] == text;
    return true;
  }

  lemma {:induction false} PeakGrows(s: Scan, text: string)
    ensures Run(s, text).peak >= s.peak
  {
    if text != "" {
      PeakGrows(s, text[..|text| - 1]);
    }
  }

  lemma PeakStays(text: string, n: nat)
    requires n <= |text|
    ensures Run(BEGIN, text).peak >= Run(BEGIN, text[..n]).peak
  {
    assert text == text[..n] + text[n..];
    RunAppend(BEGIN, text[..n], text[n..]);
    PeakGrows(Run(BEGIN, text[..n]), text[n..]);
  }
}
