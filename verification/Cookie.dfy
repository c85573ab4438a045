/** The session cookie: reading a Cookie header, writing Set-Cookie, and what a user agent does between. */
module Cookie {
  import opened Basics

  const SESSION_COOKIE: string := "fips_session"

  /** One `name=value` part, trimmed and cut at its first equals sign. */
  function ReadPair(part: string): Option<(string, string)> {
    var (name, value) := Cut(Trim(part), '=');
    match value
    case None => None
    case Some(v) => Some((name, v))
  }

  /** `str::split(';')`. */
  function Parts(header: string): (ps: seq<string>)
    ensures ps != []
    decreases |header|
  {
    var (part, rest) := Cut(header, ';');
    match rest
    case None => [part]
    case Some(more) => [part] + Parts(more)
  }

  /** The first part that is a pair of that name decides. */
  function FirstIn(parts: seq<string>, name: string): Option<string> {
    if parts == [] then None
    else
      match ReadPair(parts[0])
      case Some((k, v)) => if k == name then Some(v) else FirstIn(parts[1..], name)
      case None => FirstIn(parts[1..], name)
  }

  /** `cookie_value`; `header` is None when it is absent or not printable ASCII. */
  method CookieValue(header: Option<string>, name: string) returns (r: Option<string>)
    ensures r == if header.None? then None else FirstIn(Parts(header.value), name)
  {
    if header.None? {
      return None;
    }
    var parts := Parts(header.value);
    assert parts[0..] == parts;
    for i := 0 to |parts|
      invariant FirstIn(parts, name) == FirstIn(parts[i..], name)
    {
      assert parts[i..][1..] == parts[i + 1..];
      var pair := ReadPair(parts[i]);
      if pair.Some? && pair.value.0 == name {
        return Some(pair.value.1);
      }
    }
    return None;
  }

  // ----- round trip (section 4.2.1 of RFC 6265) -----------------------------------

  type Pair = (string, string)

  predicate IsName(s: string) {
    '=' !in s && ';' !in s && NoOuterSpace(s)
  }

  predicate IsCookieValue(s: string) {
    ';' !in s && NoOuterSpace(s)
  }

  ghost predicate WellFormed(pairs: seq<Pair>) {
    forall i | 0 <= i < |pairs| :: IsName(pairs[i].0) && IsCookieValue(pairs[i].1)
  }

  function PairText(p: Pair): string {
    p.0 + "=" + p.1
  }

  /** cookie-pair *( ";" SP cookie-pair ) */
  function CookieText(pairs: seq<Pair>): string {
    if pairs == [] then ""
    else if |pairs| == 1 then PairText(pairs[0])
    else PairText(pairs[0]) + ";" + (" " + CookieText(pairs[1..]))
  }

  function FirstValue(pairs: seq<Pair>, name: string): Option<string> {
    if pairs == [] then None
    else if pairs[0].0 == name then Some(pairs[0].1)
    else FirstValue(pairs[1..], name)
  }

  lemma TrimSpace(s: string)
    ensures Trim(" " + s) == Trim(s)
  {
    assert (" " + s)[1..] == s;
  }

  lemma PairTextShape(p: Pair)
    requires IsName(p.0) && IsCookieValue(p.1)
    ensures ';' !in PairText(p) && NoOuterSpace(PairText(p))
    ensures Cut(PairText(p), '=') == (p.0, Some(p.1))
  {
    var t := PairText(p);
    assert t[0] == if p.0 == "" then '=' else p.0[0];
    assert t[|t| - 1] == if p.1 == "" then '=' else p.1[|p.1| - 1];
    CutAt(p.0, '=', p.1);
  }

  lemma PairRound(p: Pair)
    requires IsName(p.0) && IsCookieValue(p.1)
    ensures ';' !in PairText(p) && ';' !in " " + PairText(p)
    ensures ReadPair(PairText(p)) == Some(p) && ReadPair(" " + PairText(p)) == Some(p)
  {
    PairTextShape(p);
    TrimKeeps(PairText(p));
    TrimSpace(PairText(p));
  }

  lemma PartsStep(first: string, rest: string, name: string)
    requires ';' !in first
    ensures Parts(first) == [first]
    ensures FirstIn(Parts(first + ";" + rest), name)
         == match ReadPair(first)
            case Some((k, v)) => if k == name then Some(v) else FirstIn(Parts(rest), name)
            case None => FirstIn(Parts(rest), name)
  {
    CutNone(first, ';');
    CutAt(first, ';', rest);
    assert ([first] + Parts(rest))[1..] == Parts(rest);
  }

  lemma OnePart(part: string, name: string)
    requires Parts(part) == [part]
    ensures FirstIn(Parts(part), name)
         == match ReadPair(part)
            case Some((k, v)) => if k == name then Some(v) else None
            case None => None
  {
    assert [part][1..] == [];
  }

  lemma BlankLead(lead: string)
    requires lead == "" || lead == " "
    ensures ';' !in lead && ReadPair(lead) == None
  {
    if lead == " " {
      TrimSpace("");
      assert " " + "" == " ";
    }
    TrimKeeps("");
  }

  lemma NoPairs(lead: string, name: string)
    requires lead == "" || lead == " "
    ensures FirstIn(Parts(lead), name) == None
  {
    BlankLead(lead);
    hide ReadPair;
    PartsStep(lead, "", name);
    OnePart(lead, name);
  }

  lemma OnePair(lead: string, p: Pair, name: string)
    requires lead == "" || lead == " "
    requires IsName(p.0) && IsCookieValue(p.1)
    ensures FirstIn(Parts(lead + PairText(p)), name) == if p.0 == name then Some(p.1) else None
  {
    LeadingPair(lead, p);
    hide ReadPair, IsName, IsCookieValue, PairText;
    PartsStep(lead + PairText(p), "", name);
    OnePart(lead + PairText(p), name);
  }

  lemma NextPair(lead: string, p: Pair, rest: string, name: string)
    requires lead == "" || lead == " "
    requires IsName(p.0) && IsCookieValue(p.1)
    ensures FirstIn(Parts(lead + PairText(p) + ";" + rest), name)
         == if p.0 == name then Some(p.1) else FirstIn(Parts(rest), name)
  {
    LeadingPair(lead, p);
    hide ReadPair, IsName, IsCookieValue, PairText;
    PartsStep(lead + PairText(p), rest, name);
  }

  /** The parts of a cookie header, `lead` being what precedes the first pair. */
  lemma {:induction false} CookieParts(pairs: seq<Pair>, lead: string, name: string)
    requires WellFormed(pairs)
    requires lead == "" || lead == " "
    ensures FirstIn(Parts(lead + CookieText(pairs)), name) == FirstValue(pairs, name)
  {
    hide IsName, IsCookieValue, FirstIn, Parts, PairText;
    if pairs == [] {
      assert lead + CookieText(pairs) == lead;
      NoPairs(lead, name);
    } else if |pairs| == 1 {
      OnePair(lead, pairs[0], name);
    } else {
      var rest := " " + CookieText(pairs[1..]);
      assert lead + CookieText(pairs) == lead + PairText(pairs[0]) + ";" + rest;
      NextPair(lead, pairs[0], rest, name);
      CookieParts(pairs[1..], " ", name);
    }
  }

  lemma LeadingPair(lead: string, p: Pair)
    requires lead == "" || lead == " "
    requires IsName(p.0) && IsCookieValue(p.1)
    ensures ReadPair(lead + PairText(p)) == Some(p) && ';' !in lead + PairText(p)
  {
    PairRound(p);
    assert "" + PairText(p) == PairText(p);
  }

  /** Looking a name up in a well-formed Cookie header finds the first pair of that name, or nothing. */
  lemma CookieRoundTrip(pairs: seq<Pair>, name: string)
    requires WellFormed(pairs)
    ensures FirstIn(Parts(CookieText(pairs)), name) == FirstValue(pairs, name)
  {
    CookieParts(pairs, "", name);
    assert "" + CookieText(pairs) == CookieText(pairs);
  }

  // ----- the session token's way to the browser and back ---------------------------

  /** Section 5 of RFC 4648, without padding: the URL-safe alphabet. */
  function Base64Char(n: nat): (c: char)
    requires n < 64
    ensures c != ';' && c != '=' && !IsSpace(c)
  {
    if n < 26 then ('A' as int + n) as char
    else if n < 52 then ('a' as int + n - 26) as char
    else if n < 62 then ('0' as int + n - 52) as char
    else if n == 62 then '-' else '_'
  }

  function Base64Url(bs: Bytes): (s: string)
    ensures forall i | 0 <= i < |s| :: s[i] != ';' && s[i] != '=' && !IsSpace(s[i])
  {
    if |bs| == 0 then ""
    else
      var b0 := bs[0] as nat;
      var b1 := if |bs| > 1 then bs[1] as nat else 0;
      var b2 := if |bs| > 2 then bs[2] as nat else 0;
      var quad := [Base64Char(b0 / 4), Base64Char(b0 % 4 * 16 + b1 / 16),
                   Base64Char(b1 % 16 * 4 + b2 / 64), Base64Char(b2 % 64)];
      if |bs| < 3 then quad[..|bs| + 1] else quad + Base64Url(bs[3..])
  }

  const ATTRIBUTES: string := " Path=/; HttpOnly; SameSite=Lax; Max-Age="

  /** `build_session_cookie`; `maxAge` is the printed number of seconds. */
  function SetCookie(token: string, maxAge: string): string {
    SESSION_COOKIE + "=" + token + ";" + (ATTRIBUTES + maxAge)
  }

  /** What a user agent stores from a Set-Cookie header (section 5.2 of RFC 6265). */
  function Stored(setCookie: string): Option<Pair> {
    var (nameValue, _) := Cut(setCookie, ';');
    var (name, value) := Cut(nameValue, '=');
    match value
    case None => None
    case Some(v) => if Trim(name) == "" then None else Some((Trim(name), Trim(v)))
  }

  lemma SessionNameIsName()
    ensures IsName(SESSION_COOKIE) && SESSION_COOKIE != ""
  {
    assert SESSION_COOKIE[0] == 'f' && SESSION_COOKIE[|SESSION_COOKIE| - 1] == 'n';
  }

  lemma PairStored(p: Pair, attrs: string)
    requires IsName(p.0) && p.0 != "" && IsCookieValue(p.1)
    ensures Stored(PairText(p) + ";" + attrs) == Some(p)
  {
    PairTextShape(p);
    CutAt(PairText(p), ';', attrs);
    TrimKeeps(p.0);
    TrimKeeps(p.1);
  }

  lemma TokenStored(token: string, maxAge: string)
    requires IsCookieValue(token)
    ensures Stored(SetCookie(token, maxAge)) == Some((SESSION_COOKIE, token))
  {
    SessionNameIsName();
    hide Stored, IsName, IsCookieValue, ATTRIBUTES, SESSION_COOKIE;
    PairStored((SESSION_COOKIE, token), ATTRIBUTES + maxAge);
  }

  lemma {:induction false} FirstValueSkips(a: seq<Pair>, b: seq<Pair>, name: string)
    requires forall i | 0 <= i < |a| :: a[i].0 != name
    ensures FirstValue(a + b, name) == FirstValue(b, name)
  {
    if a == [] {
      assert a + b == b;
    } else {
      assert (a + b)[1..] == a[1..] + b;
      FirstValueSkips(a[1..], b, name);
    }
  }

  lemma TokenIsValue(raw: Bytes)
    ensures IsCookieValue(Base64Url(raw))
  {
    hide Base64Url;
  }

  lemma WellFormedJoin(before: seq<Pair>, mine: Pair, after: seq<Pair>)
    requires WellFormed(before) && WellFormed(after) && IsName(mine.0) && IsCookieValue(mine.1)
    ensures WellFormed(before + ([mine] + after))
  {
    hide IsName, IsCookieValue;
  }

  /**
   A session token issued from any random bytes comes back unchanged: the browser stores it from
   Set-Cookie and the server reads it from the Cookie header the browser sends, whatever cookies stand
   after it and whatever cookies of other names stand before.
   */
  lemma SessionTokenReturns(raw: Bytes, maxAge: string, before: seq<Pair>, after: seq<Pair>)
    requires WellFormed(before) && WellFormed(after)
    requires forall i | 0 <= i < |before| :: before[i].0 != SESSION_COOKIE
    ensures var token := Base64Url(raw);
      && Stored(SetCookie(token, maxAge)) == Some((SESSION_COOKIE, token))
      && FirstIn(Parts(CookieText(before + ([(SESSION_COOKIE, token)] + after))), SESSION_COOKIE) == Some(token)
  {
    hide *;
    var token := Base64Url(raw);
    TokenIsValue(raw);
    TokenStored(token, maxAge);
    SessionNameIsName();
    PairFound(before, (SESSION_COOKIE, token), after);
  }

  /** The first pair of its name is found wherever it stands. */
  lemma PairFound(before: seq<Pair>, mine: Pair, after: seq<Pair>)
    requires WellFormed(before) && WellFormed(after) && IsName(mine.0) && IsCookieValue(mine.1)
    requires forall i | 0 <= i < |before| :: before[i].0 != mine.0
    ensures FirstIn(Parts(CookieText(before + ([mine] + after))), mine.0) == Some(mine.1)
  {
    hide WellFormed, IsName, IsCookieValue, CookieText, FirstIn, Parts;
    var tail := [mine] + after;
    assert tail[0] == mine;
    WellFormedJoin(before, mine, after);
    CookieRoundTrip(before + tail, mine.0);
    FirstValueSkips(before, tail, mine.0);
  }
}
