/**
 JSON text as `serde_json` writes and reads it: the compact printer, an RFC 8259 reader with
 serde_json's nesting limit, and the theorem that reading inverts printing exactly up to that limit.
 */
module Json {
  import opened Basics
  import Hex

  /** `raw` numbers keep their printed text; object members keep their order. */
  datatype Json =
    | Null
    | Bool(b: bool)
    | Number(raw: NumberText)
    | String(s: string)
    | Array(items: seq<Json>)
    | Object(members: seq<Member>)

  datatype Member = Member(name: string, value: Json)

  // ----- numbers (RFC 8259, section 6) -------------------------------------

  predicate IsDigit(c: char) { '0' <= c <= '9' }

  predicate IsNumberChar(c: char) { IsDigit(c) || c == '+' || c == '-' || c == '.' || c == 'e' || c == 'E' }

  function Digits(s: string): (n: nat)
    ensures n <= |s|
    ensures forall i | 0 <= i < n :: IsDigit(s[i])
  {
    if s != "" && IsDigit(s[0]) then 1 + Digits(s[1..]) else 0
  }

  predicate IsInteger(s: string) {
    && s != ""
    && (forall i | 0 <= i < |s| :: IsDigit(s[i]))
    && (s[0] == '0' ==> |s| == 1)
  }

  predicate IsExponent(s: string) {
    s == "" ||
    ((s[0] == 'e' || s[0] == 'E') &&
     var d := if |s| > 1 && (s[1] == '+' || s[1] == '-') then s[2..] else s[1..];
     d != "" && Digits(d) == |d|)
  }

  predicate IsFraction(s: string) {
    if s != "" && s[0] == '.' then
      var n := Digits(s[1..]);
      n > 0 && IsExponent(s[1 + n..])
    else IsExponent(s)
  }

  predicate IsNumber(s: string) {
    var t := if s != "" && s[0] == '-' then s[1..] else s;
    var n := Digits(t);
    && IsInteger(t[..n])
    && IsFraction(t[n..])
    && forall i | 0 <= i < |s| :: IsNumberChar(s[i])
  }

  type NumberText = s: string | IsNumber(s) witness "0"

  /** A natural number as serde_json prints it. */
  function NatText(n: nat): (s: NumberText)
  {
    NatDigitsShape(n);
    NatDigits(n)
  }

  function NatDigits(n: nat): string {
    (if n < 10 then "" else NatDigits(n / 10)) + [('0' as int + n % 10) as char]
  }

  lemma {:induction false} NatDigitsShape(n: nat)
    ensures IsNumber(NatDigits(n)) && NatDigits(n)[0] != '-'
    ensures n > 0 ==> NatDigits(n)[0] != '0'
  {
    var s := NatDigits(n);
    if n >= 10 { NatDigitsDigits(n / 10); NatDigitsShape(n / 10); }
    NatDigitsDigits(n);
    AllDigits(s);
    assert s[..|s|] == s && s[|s|..] == "";
  }

  lemma {:induction false} NatDigitsDigits(n: nat)
    ensures NatDigits(n) != "" && forall i | 0 <= i < |NatDigits(n)| :: IsDigit(NatDigits(n)[i])
  {
    if n >= 10 { NatDigitsDigits(n / 10); }
  }

  lemma {:induction false} AllDigits(s: string)
    requires forall i | 0 <= i < |s| :: IsDigit(s[i])
    ensures Digits(s) == |s|
  {
    if s != "" { AllDigits(s[1..]); }
  }

  // ----- printing -----------------------------------------------------------

  function Hex2(n: nat): (s: string)
    requires n < 256
  {
    [Hex.Digit(n / 16), Hex.Digit(n % 16)]
  }

  function Escape(c: char): string {
    if c == '"' then "\\\""
    else if c == '\\' then "\\\\"
    else if c == '\n' then "\\n"
    else if c == '\r' then "\\r"
    else if c == '\t' then "\\t"
    else if c == '\U{8}' then "\\b"
    else if c == '\U{C}' then "\\f"
    else if c < ' ' then "\\u00" + Hex2(c as int)
    else [c]
  }

  /** The escaped characters of `s`, the closing quote, and then `rest`. */
  function WriteString(s: string, rest: string): string {
    if s == "" then "\"" + rest else Escape(s[0]) + WriteString(s[1..], rest)
  }

  /** The text of `v` followed by `rest`. */
  function Write(v: Json, rest: string): string
    decreases v, 1
  {
    match v
    case Null => "null" + rest
    case Bool(b) => (if b then "true" else "false") + rest
    case Number(raw) => raw + rest
    case String(s) => "\"" + WriteString(s, rest)
    case Array(items) => "[" + WriteItems(items, rest)
    case Object(members) => "{" + WriteMembers(members, rest)
  }

  function WriteItems(items: seq<Json>, rest: string): string
    decreases items, 0
  {
    if items == [] then "]" + rest
    else Write(items[0], if |items| == 1 then "]" + rest else "," + WriteItems(items[1..], rest))
  }

  function WriteMembers(members: seq<Member>, rest: string): string
    decreases members, 0
  {
    if members == [] then "}" + rest
    else
      var after := if |members| == 1 then "}" + rest else "," + WriteMembers(members[1..], rest);
      "\"" + WriteString(members[0].name, ":" + Write(members[0].value, after))
  }

  /** `Value::to_string`, and `to_string` of a whole document. */
  function Print(v: Json): string {
    Write(v, "")
  }

  /** How many brackets are open at once at most. */
  function Depth(v: Json): nat
    decreases v, 1
  {
    match v
    case Array(items) => 1 + ItemsDepth(items)
    case Object(members) => 1 + MembersDepth(members)
    case _ => 0
  }

  function Max(a: nat, b: nat): nat { if a < b then b else a }

  function ItemsDepth(items: seq<Json>): nat
    decreases items, 0
  {
    if items == [] then 0 else Max(Depth(items[0]), ItemsDepth(items[1..]))
  }

  function MembersDepth(members: seq<Member>): nat
    decreases members, 0
  {
    if members == [] then 0 else Max(Depth(members[0].value), MembersDepth(members[1..]))
  }

  // ----- reading ------------------------------------------------------------

  datatype Parsed<+T> = Bad | Got(value: T, rest: string)

  predicate IsBlankChar(c: char) { c == ' ' || c == '\t' || c == '\n' || c == '\r' }

  function Skip(s: string): (t: string)
    ensures |t| <= |s|
  {
    if s != "" && IsBlankChar(s[0]) then Skip(s[1..]) else s
  }

  function HexValue(c: char): Option<nat> {
    if '0' <= c <= '9' then Some(c as int - '0' as int)
    else if 'a' <= c <= 'f' then Some(c as int - 'a' as int + 10)
    else if 'A' <= c <= 'F' then Some(c as int - 'A' as int + 10)
    else None
  }

  function Hex4(s: string): (r: Option<nat>)
    ensures r.Some? ==> |s| >= 4 && r.value < 0x10000
  {
    if |s| < 4 then None
    else match (HexValue(s[0]), HexValue(s[1]), HexValue(s[2]), HexValue(s[3]))
         case (Some(a), Some(b), Some(c), Some(d)) => Some(((a * 16 + b) * 16 + c) * 16 + d)
         case _ => None
  }

  /** What follows a backslash: a short escape, a code unit, or a surrogate pair. */
  function ReadEscape(s: string): (r: Parsed<char>)
    ensures r.Got? ==> |r.rest| < |s|
  {
    if s == "" then Bad
    else match s[0]
         case '"' => Got('"', s[1..])
         case '\\' => Got('\\', s[1..])
         case '/' => Got('/', s[1..])
         case 'b' => Got('\U{8}', s[1..])
         case 'f' => Got('\U{C}', s[1..])
         case 'n' => Got('\n', s[1..])
         case 'r' => Got('\r', s[1..])
         case 't' => Got('\t', s[1..])
         case 'u' =>
           (match Hex4(s[1..])
            case None => Bad
            case Some(n) =>
              if n < 0xD800 || 0xE000 <= n then Got(n as char, s[5..])
              else if n < 0xDC00 && |s| >= 7 && s[5] == '\\' && s[6] == 'u' then
                (match Hex4(s[7..])
                 case Some(m) =>
                   if 0xDC00 <= m < 0xE000
                   then Got((0x10000 + (n - 0xD800) * 0x400 + (m - 0xDC00)) as char, s[11..])
                   else Bad
                 case None => Bad)
              else Bad)
         case _ => Bad
  }

  /** The rest of a string, after its opening quote. */
  function ReadString(s: string): (r: Parsed<string>)
    ensures r.Got? ==> |r.rest| < |s|
  {
    if s == "" || s[0] < ' ' then Bad
    else if s[0] == '"' then Got("", s[1..])
    else
      var first := if s[0] == '\\' then ReadEscape(s[1..]) else Got(s[0], s[1..]);
      if first.Bad? then Bad
      else
        match ReadString(first.rest)
        case Bad => Bad
        case Got(tail, rest) => Got([first.value] + tail, rest)
  }

  function NumberPrefix(s: string): (n: nat)
    ensures n <= |s|
  {
    if s != "" && IsNumberChar(s[0]) then 1 + NumberPrefix(s[1..]) else 0
  }

  function Literal(s: string, word: string, v: Json): (r: Parsed<Json>)
    requires word != ""
    ensures r.Got? ==> |r.rest| < |s|
  {
    if word <= s then Got(v, s[|word|..]) else Bad
  }

  /** One value, with at most `depth` brackets open at once. */
  function Read(text: string, depth: nat): (r: Parsed<Json>)
    ensures r.Got? ==> |r.rest| < |text|
    decreases |text|, 2
  {
    var s := Skip(text);
    if s == "" then Bad
    else if s[0] == 'n' then Literal(s, "null", Null)
    else if s[0] == 't' then Literal(s, "true", Bool(true))
    else if s[0] == 'f' then Literal(s, "false", Bool(false))
    else if s[0] == '"' then
      match ReadString(s[1..])
      case Bad => Bad
      case Got(str, rest) => Got(String(str), rest)
    else if s[0] == '[' then (if depth == 0 then Bad else ReadArray(s[1..], depth - 1))
    else if s[0] == '{' then (if depth == 0 then Bad else ReadObject(s[1..], depth - 1))
    else
      var n := NumberPrefix(s);
      if IsNumber(s[..n]) then Got(Number(s[..n]), s[n..]) else Bad
  }

  /** The rest of an array, after its opening bracket. */
  function ReadArray(s: string, depth: nat): (r: Parsed<Json>)
    ensures r.Got? ==> |r.rest| < |s|
    decreases |s|, 4
  {
    var t := Skip(s);
    if t != "" && t[0] == ']' then Got(Array([]), t[1..])
    else
      match ReadItems(s, depth)
      case Bad => Bad
      case Got(items, rest) => Got(Array(items), rest)
  }

  /** The rest of an object, after its opening brace. */
  function ReadObject(s: string, depth: nat): (r: Parsed<Json>)
    ensures r.Got? ==> |r.rest| < |s|
    decreases |s|, 4
  {
    var t := Skip(s);
    if t != "" && t[0] == '}' then Got(Object([]), t[1..])
    else
      match ReadMembers(s, depth)
      case Bad => Bad
      case Got(members, rest) => Got(Object(members), rest)
  }

  /** One or more values up to the closing bracket. */
  function ReadItems(s: string, depth: nat): (r: Parsed<seq<Json>>)
    ensures r.Got? ==> |r.rest| < |s|
    decreases |s|, 3
  {
    match Read(s, depth)
    case Bad => Bad
    case Got(v, rest) => ItemsAfter(v, rest, depth)
  }

  function ItemsAfter(v: Json, s: string, depth: nat): (r: Parsed<seq<Json>>)
    ensures r.Got? ==> |r.rest| < |s|
    decreases |s|, 0
  {
    var t := Skip(s);
    if t != "" && t[0] == ']' then Got([v], t[1..])
    else if t != "" && t[0] == ',' then
      match ReadItems(t[1..], depth)
      case Bad => Bad
      case Got(vs, rest) => Got([v] + vs, rest)
    else Bad
  }

  /** A member name and its colon. */
  function ReadName(text: string): (r: Parsed<string>)
    ensures r.Got? ==> |r.rest| < |text|
  {
    var s := Skip(text);
    if s == "" || s[0] != '"' then Bad
    else match ReadString(s[1..])
         case Bad => Bad
         case Got(name, rest) =>
           var t := Skip(rest);
           if t != "" && t[0] == ':' then Got(name, t[1..]) else Bad
  }

  /** One or more members up to the closing brace. */
  function ReadMembers(s: string, depth: nat): (r: Parsed<seq<Member>>)
    ensures r.Got? ==> |r.rest| < |s|
    decreases |s|, 3
  {
    match ReadName(s)
    case Bad => Bad
    case Got(name, rest) =>
      match Read(rest, depth)
      case Bad => Bad
      case Got(v, rest') => MembersAfter(Member(name, v), rest', depth)
  }

  function MembersAfter(m: Member, s: string, depth: nat): (r: Parsed<seq<Member>>)
    ensures r.Got? ==> |r.rest| < |s|
    decreases |s|, 0
  {
    var t := Skip(s);
    if t != "" && t[0] == '}' then Got([m], t[1..])
    else if t != "" && t[0] == ',' then
      match ReadMembers(t[1..], depth)
      case Bad => Bad
      case Got(ms, rest) => Got([m] + ms, rest)
    else Bad
  }

  /** A whole document: one value and nothing but blanks after it. */
  function Parse(text: string, depth: nat): Option<Json> {
    match Read(text, depth)
    case Bad => None
    case Got(v, rest) => if Skip(rest) == "" then Some(v) else None
  }

  // ----- reading inverts printing -------------------------------------------

  lemma UnicodeEscapeRound(n: nat, rest: string)
    requires n < 0x20
    ensures ReadEscape("u00" + Hex2(n) + rest) == Got(n as char, rest)
  {
    var e := "u00" + Hex2(n) + rest;
    assert HexValue(Hex.Digit(n / 16)) == Some(n / 16);
    assert HexValue(Hex.Digit(n % 16)) == Some(n % 16);
    assert Hex4(e[1..]) == Some(n);
    assert e[5..] == rest;
  }

  lemma EscapeRound(c: char, rest: string)
    ensures Escape(c) != "" && Escape(c)[0] >= ' ' && Escape(c)[0] != '"'
    ensures Escape(c)[0] == '\\' ==> ReadEscape(Escape(c)[1..] + rest) == Got(c, rest)
    ensures Escape(c)[0] != '\\' ==> Escape(c) == [c]
  {
    var e := Escape(c);
    if |e| == 2 {
      assert e[1..] + rest == [e[1]] + rest;
      assert ([e[1]] + rest)[1..] == rest;
    } else if |e| > 2 {
      UnicodeEscapeRound(c as int, rest);
      assert e[1..] + rest == "u00" + Hex2(c as int) + rest;
    }
  }

  lemma StringStep(c: char, tail: string, str: string, rest: string)
    requires ReadString(tail) == Got(str, rest)
    ensures ReadString(Escape(c) + tail) == Got([c] + str, rest)
  {
    EscapeRound(c, tail);
    var e := Escape(c);
    assert (e + tail)[0] == e[0] && (e + tail)[1..] == e[1..] + tail;
    if e[0] != '\\' {
      assert (e + tail)[1..] == tail;
    }
  }

  lemma {:induction false} StringRound(s: string, rest: string)
    ensures ReadString(WriteString(s, rest)) == Got(s, rest)
  {
    if s != "" {
      StringRound(s[1..], rest);
      StringStep(s[0], WriteString(s[1..], rest), s[1..], rest);
      assert [s[0]] + s[1..] == s;
    }
  }

  lemma {:induction false} NumberPrefixIs(s: string, rest: string)
    requires forall i | 0 <= i < |s| :: IsNumberChar(s[i])
    requires rest == "" || !IsNumberChar(rest[0])
    ensures NumberPrefix(s + rest) == |s|
  {
    if s == "" {
      assert s + rest == rest;
    } else {
      NumberPrefixIs(s[1..], rest);
      assert (s + rest)[1..] == s[1..] + rest;
    }
  }

  predicate StartsLikeValue(c: char) {
    c == 'n' || c == 't' || c == 'f' || c == '"' || c == '[' || c == '{' || c == '-' || IsDigit(c)
  }

  lemma WriteStarts(v: Json, rest: string)
    ensures Write(v, rest) != "" && StartsLikeValue(Write(v, rest)[0])
    ensures Skip(Write(v, rest)) == Write(v, rest)
  {
  }

  lemma ReadLiteral(b: bool, rest: string, depth: nat)
    ensures Read("null" + rest, depth) == Got(Null, rest)
    ensures Read((if b then "true" else "false") + rest, depth) == Got(Bool(b), rest)
  {
    assert ("null" + rest)[4..] == rest;
    var word := if b then "true" else "false";
    assert (word + rest)[|word|..] == rest;
  }

  lemma ReadNumber(raw: NumberText, rest: string, depth: nat)
    requires rest == "" || !IsNumberChar(rest[0])
    ensures Read(raw + rest, depth) == Got(Number(raw), rest)
  {
    WriteStarts(Number(raw), rest);
    NumberPrefixIs(raw, rest);
    var t := raw + rest;
    assert t[..|raw|] == raw && t[|raw|..] == rest;
    assert t[0] == '-' || IsDigit(t[0]);
    hide Skip, NumberPrefix, IsNumber, IsNumberChar, ReadString, Write;
  }

  lemma ReadQuoted(s: string, rest: string, depth: nat)
    ensures Read("\"" + WriteString(s, rest), depth) == Got(String(s), rest)
  {
    StringRound(s, rest);
    assert ("\"" + WriteString(s, rest))[1..] == WriteString(s, rest);
    hide ReadString, WriteString;
  }

  lemma ReadScalar(v: Json, rest: string, depth: nat)
    requires !v.Array? && !v.Object?
    requires rest == "" || !IsNumberChar(rest[0])
    ensures Read(Write(v, rest), depth) == Got(v, rest)
  {
    hide Read, WriteString;
    match v
    case Null => ReadLiteral(true, rest, depth);
    case Bool(b) => ReadLiteral(b, rest, depth);
    case Number(raw) => ReadNumber(raw, rest, depth);
    case String(s) => ReadQuoted(s, rest, depth);
  }

  lemma ReadBracket(body: string, depth: nat)
    ensures Read("[" + body, depth) == if depth == 0 then Bad else ReadArray(body, depth - 1)
    ensures Read("{" + body, depth) == if depth == 0 then Bad else ReadObject(body, depth - 1)
  {
  }

  lemma AfterSeparator(v: Json, m: Member, tail: string, depth: nat)
    ensures ItemsAfter(v, "]" + tail, depth) == Got([v], tail)
    ensures MembersAfter(m, "}" + tail, depth) == Got([m], tail)
    ensures ItemsAfter(v, "," + tail, depth)
         == var r := ReadItems(tail, depth); if r.Bad? then Bad else Got([v] + r.value, r.rest)
    ensures MembersAfter(m, "," + tail, depth)
         == var r := ReadMembers(tail, depth); if r.Bad? then Bad else Got([m] + r.value, r.rest)
  {
  }

  /**
   The round trip and its exact limit: printed text followed by anything that cannot extend a number
   reads back as the same value when the nesting fits, and is refused when it does not.
   */
  lemma {:induction false} ReadWritten(v: Json, rest: string, depth: nat)
    requires rest == "" || !IsNumberChar(rest[0])
    ensures Read(Write(v, rest), depth) == if Depth(v) <= depth then Got(v, rest) else Bad
    decreases v, 2
  {
    hide Read, ReadArray, ReadObject, WriteItems, WriteMembers, ItemsDepth, MembersDepth;
    if v.Array? {
      ReadBracket(WriteItems(v.items, rest), depth);
      if depth > 0 { ReadWrittenArray(v.items, rest, depth - 1); }
    } else if v.Object? {
      ReadBracket(WriteMembers(v.members, rest), depth);
      if depth > 0 { ReadWrittenObject(v.members, rest, depth - 1); }
    } else {
      ReadScalar(v, rest, depth);
    }
  }

  lemma {:induction false} ReadWrittenArray(items: seq<Json>, rest: string, depth: nat)
    ensures ReadArray(WriteItems(items, rest), depth)
         == if ItemsDepth(items) <= depth then Got(Array(items), rest) else Bad
    decreases items, 1
  {
    if items == [] {
      assert Skip("]" + rest) == "]" + rest;
    } else {
      var after := if |items| == 1 then "]" + rest else "," + WriteItems(items[1..], rest);
      WriteStarts(items[0], after);
      ReadWrittenItems(items, rest, depth);
      hide Skip, Write, ReadItems, ItemsDepth;
    }
  }

  lemma {:induction false} ReadWrittenObject(members: seq<Member>, rest: string, depth: nat)
    ensures ReadObject(WriteMembers(members, rest), depth)
         == if MembersDepth(members) <= depth then Got(Object(members), rest) else Bad
    decreases members, 1
  {
    if members == [] {
      assert Skip("}" + rest) == "}" + rest;
    } else {
      ReadWrittenMembers(members, rest, depth);
      hide Write, WriteString, ReadMembers, MembersDepth;
    }
  }

  lemma {:induction false} ReadWrittenItems(items: seq<Json>, rest: string, depth: nat)
    requires items != []
    ensures ReadItems(WriteItems(items, rest), depth)
         == if ItemsDepth(items) <= depth then Got(items, rest) else Bad
    decreases items, 0
  {
    hide Read, Write, ItemsAfter, Depth;
    var v, more := items[0], items[1..];
    var after := if more == [] then "]" + rest else "," + WriteItems(more, rest);
    ReadWritten(v, after, depth);
    if more == [] {
      AfterSeparator(v, Member("", v), rest, depth);
      assert items == [v];
    } else {
      AfterSeparator(v, Member("", v), WriteItems(more, rest), depth);
      ReadWrittenItems(more, rest, depth);
      assert items == [v] + more;
    }
  }

  lemma MemberStep(m: Member, after: string, depth: nat)
    ensures ReadMembers("\"" + WriteString(m.name, ":" + Write(m.value, after)), depth)
         == var r := Read(Write(m.value, after), depth);
            if r.Bad? then Bad else MembersAfter(Member(m.name, r.value), r.rest, depth)
  {
    StringRound(m.name, ":" + Write(m.value, after));
    hide ReadString, WriteString, Read, Write, MembersAfter;
  }

  lemma {:induction false} ReadWrittenMembers(members: seq<Member>, rest: string, depth: nat)
    requires members != []
    ensures ReadMembers(WriteMembers(members, rest), depth)
         == if MembersDepth(members) <= depth then Got(members, rest) else Bad
    decreases members, 0
  {
    hide Read, Write, WriteString, ReadMembers, MembersAfter, Depth;
    var m, more := members[0], members[1..];
    var after := if more == [] then "}" + rest else "," + WriteMembers(more, rest);
    MemberStep(m, after, depth);
    ReadWritten(m.value, after, depth);
    if more == [] {
      AfterSeparator(m.value, m, rest, depth);
      assert members == [m];
    } else {
      AfterSeparator(m.value, m, WriteMembers(more, rest), depth);
      ReadWrittenMembers(more, rest, depth);
      assert members == [m] + more;
    }
  }

  /** A printed document reads back exactly when it nests within the limit. */
  lemma ParsePrinted(v: Json, depth: nat)
    ensures Parse(Print(v), depth) == if Depth(v) <= depth then Some(v) else None
  {
    ReadWritten(v, "", depth);
  }

  /** Two values with the same text are the same value. */
  lemma PrintInjective(v: Json, w: Json)
    requires Print(v) == Print(w)
    ensures v == w
  {
    var depth := Max(Depth(v), Depth(w));
    ParsePrinted(v, depth);
    ParsePrinted(w, depth);
  }

  // ----- printed text stays on one line (RFC 8259, section 7) ---------------

  predicate OneLine(s: string) {
    forall i | 0 <= i < |s| :: s[i] >= ' '
  }

  lemma Joined(a: string, b: string)
    requires OneLine(a) && OneLine(b)
    ensures OneLine(a + b)
  {
  }

  lemma Words(c: char)
    requires c >= ' '
    ensures OneLine("null") && OneLine("true") && OneLine("false") && OneLine([c])
  {
  }

  lemma EscapeOneLine(c: char)
    ensures OneLine(Escape(c))
  {
  }

  lemma {:induction false} StringOneLine(s: string, rest: string)
    requires OneLine(rest)
    ensures OneLine(WriteString(s, rest))
  {
    hide OneLine, Escape;
    Words('"');
    Joined("\"", rest);
    if s != "" {
      StringOneLine(s[1..], rest);
      EscapeOneLine(s[0]);
      Joined(Escape(s[0]), WriteString(s[1..], rest));
    }
  }

  lemma NumberOneLine(raw: NumberText)
    ensures OneLine(raw)
  {
  }

  lemma {:induction false} WrittenOneLine(v: Json, rest: string)
    requires OneLine(rest)
    ensures OneLine(Write(v, rest))
    decreases v, 1
  {
    hide OneLine, WriteString, WriteItems, WriteMembers;
    match v
    case Null =>
      Words(' ');
      Joined("null", rest);
    case Bool(b) =>
      Words(' ');
      Joined(if b then "true" else "false", rest);
    case Number(raw) =>
      NumberOneLine(raw);
      Joined(raw, rest);
    case String(s) =>
      Words('"');
      StringOneLine(s, rest);
      Joined("\"", WriteString(s, rest));
    case Array(items) =>
      Words('[');
      ItemsOneLine(items, rest);
      Joined("[", WriteItems(items, rest));
    case Object(members) =>
      Words('{');
      MembersOneLine(members, rest);
      Joined("{", WriteMembers(members, rest));
  }

  lemma {:induction false} ItemsOneLine(items: seq<Json>, rest: string)
    requires OneLine(rest)
    ensures OneLine(WriteItems(items, rest))
    decreases items, 0
  {
    hide OneLine, Write;
    Words(']');
    Joined("]", rest);
    if |items| == 1 {
      WrittenOneLine(items[0], "]" + rest);
    } else if items != [] {
      ItemsOneLine(items[1..], rest);
      Words(',');
      Joined(",", WriteItems(items[1..], rest));
      WrittenOneLine(items[0], "," + WriteItems(items[1..], rest));
    }
  }

  lemma {:induction false} MembersOneLine(members: seq<Member>, rest: string)
    requires OneLine(rest)
    ensures OneLine(WriteMembers(members, rest))
    decreases members, 0
  {
    hide OneLine, Write, WriteString;
    Words('}');
    Joined("}", rest);
    if members != [] {
      var after := "}" + rest;
      if |members| > 1 {
        MembersOneLine(members[1..], rest);
        Words(',');
        Joined(",", WriteMembers(members[1..], rest));
        after := "," + WriteMembers(members[1..], rest);
      }
      var value := Write(members[0].value, after);
      WrittenOneLine(members[0].value, after);
      Words(':');
      Joined(":", value);
      StringOneLine(members[0].name, ":" + value);
      Words('"');
      Joined("\"", WriteString(members[0].name, ":" + value));
    }
  }
}
