/**
 JSON strings as encoding/json writes and reads them (section 7 of RFC 8259), and the cache entry
 that is put together by hand around two of them. Text is a sequence of Unicode scalar values, so
 it is valid UTF-8 by construction.
 */
module JsonText {
  import opened Wrappers

  // ---------- writing ----------

  function HexDigit(n: nat): char
    requires n < 16
  {
    if n < 10 then ('0' as int + n) as char else ('a' as int + n - 10) as char
  }

  /** The escape of one character, HTML escaping off. */
  function EscapeChar(c: char): string {
    if c == '\"' then "\\\""
    else if c == '\\' then "\\\\"
    else if c as int == 8 then "\\b"
    else if c as int == 12 then "\\f"
    else if c == '\n' then "\\n"
    else if c == '\r' then "\\r"
    else if c == '\t' then "\\t"
    else if c as int < 32 then "\\u00" + [HexDigit(c as int / 16), HexDigit(c as int % 16)]
    else if c as int == 0x2028 then "\\u2028"
    else if c as int == 0x2029 then "\\u2029"
    else [c]
  }

  /** JsonEscapeString: the encoder's output without the quotes and the final newline. */
  function Escape(s: string): string {
    if s == "" then "" else EscapeChar(s[0]) + Escape(s[1..])
  }

  function FormatEntry(digest: string, error: string): string {
    "{\"digest\":\"" + Escape(digest) + "\",\"error\":\"" + Escape(error) + "\"}"
  }

  // ---------- reading ----------

  function HexValue(c: char): Option<nat> {
    if '0' <= c <= '9' then Some(c as int - '0' as int)
    else if 'a' <= c <= 'f' then Some(10 + (c as int - 'a' as int))
    else if 'A' <= c <= 'F' then Some(10 + (c as int - 'A' as int))
    else None
  }

  function Hex4(s: string): (r: Option<nat>)
    ensures r.Some? ==> |s| >= 4 && r.value < 0x10000
  {
    if |s| < 4 then None
    else match (HexValue(s[0]), HexValue(s[1]), HexValue(s[2]), HexValue(s[3]))
      case (Some(a), Some(b), Some(c), Some(d)) =>
        if a < 16 && b < 16 && c < 16 && d < 16 then Some(((a * 16 + b) * 16 + c) * 16 + d) else None
      case _ => None
  }

  datatype Unit = Unit(c: char, length: nat)

  /** One \u escape, s starting after the u; a lone surrogate is read as U+FFFD. */
  function ReadCodeUnit(s: string): (r: Option<Unit>)
    ensures r.Some? ==> 4 <= r.value.length <= |s|
  {
    match Hex4(s)
    case None => None
    case Some(n) =>
      if n < 0xD800 || 0xE000 <= n then Some(Unit(n as char, 4))
      else if n < 0xDC00 && |s| >= 10 && s[4] == '\\' && s[5] == 'u' then
        match Hex4(s[6..])
        case Some(m) =>
          if 0xDC00 <= m < 0xE000
          then Some(Unit((0x10000 + (n - 0xD800) * 0x400 + (m - 0xDC00)) as char, 10))
          else Some(Unit('\U{FFFD}', 4))
        case None => Some(Unit('\U{FFFD}', 4))
      else Some(Unit('\U{FFFD}', 4))
  }

  /** One escape, s starting after the backslash. */
  function ReadEscape(s: string): (r: Option<Unit>)
    ensures r.Some? ==> 1 <= r.value.length <= |s|
  {
    if s == "" then None
    else match s[0]
      case '\"' => Some(Unit('\"', 1))
      case '\\' => Some(Unit('\\', 1))
      case '/' => Some(Unit('/', 1))
      case 'b' => Some(Unit(8 as char, 1))
      case 'f' => Some(Unit(12 as char, 1))
      case 'n' => Some(Unit('\n', 1))
      case 'r' => Some(Unit('\r', 1))
      case 't' => Some(Unit('\t', 1))
      case 'u' =>
        (match ReadCodeUnit(s[1..])
         case Some(u) => Some(Unit(u.c, 1 + u.length))
         case None => None)
      case _ => None
  }

  datatype Token = Token(text: string, rest: string)

  /** A string literal, s starting after its opening quote; rest follows the closing one. */
  function ReadString(s: string): (r: Option<Token>)
    ensures r.Some? ==> |r.value.rest| < |s|
    decreases |s|
  {
    if s == "" then None
    else if s[0] == '\"' then Some(Token("", s[1..]))
    else if s[0] == '\\' then
      match ReadEscape(s[1..])
      case None => None
      case Some(u) => Prepend(u.c, ReadString(s[1 + u.length..]))
    else if s[0] as int < 32 then None
    else Prepend(s[0], ReadString(s[1..]))
  }

  function Prepend(c: char, r: Option<Token>): Option<Token> {
    match r
    case None => None
    case Some(t) => Some(Token([c] + t.text, t.rest))
  }

  datatype CachedEntry = CachedEntry(digest: string, error: string)

  /** The members of the object, s starting at a key's opening quote; a later member wins. */
  function ReadMembers(s: string, entry: CachedEntry): Option<CachedEntry>
    decreases |s|
  {
    if s == "" || s[0] != '\"' then None
    else match ReadString(s[1..])
      case None => None
      case Some(key) =>
        if |key.rest| < 2 || key.rest[..2] != ":\"" then None
        else match ReadString(key.rest[2..])
          case None => None
          case Some(member) =>
            var updated :=
              if key.text == "digest" then entry.(digest := member.text)
              else if key.text == "error" then entry.(error := member.text)
              else entry;
            if member.rest == "}" then Some(updated)
            else if member.rest != "" && member.rest[0] == ',' then ReadMembers(member.rest[1..], updated)
            else None
  }

  /** json.Unmarshal into a CachedEntry; None is its error. */
  function DecodeEntry(s: string): Option<CachedEntry> {
    if s == "{}" then Some(CachedEntry("", ""))
    else if s == "" || s[0] != '{' then None
    else ReadMembers(s[1..], CachedEntry("", ""))
  }

  // ---------- reading back what was written ----------

  lemma ReadHexDigit(n: nat)
    requires n < 16
    ensures HexValue(HexDigit(n)) == Some(n)
  {
  }

  lemma ReadHex(n: nat, t: string)
    requires n < 32
    ensures Hex4("00" + [HexDigit(n / 16), HexDigit(n % 16)] + t) == Some(n)
  {
    ReadHexDigit(0);
    ReadHexDigit(n / 16);
    ReadHexDigit(n % 16);
  }

  lemma ReadLineSeparators(t: string)
    ensures Hex4("2028" + t) == Some(0x2028)
    ensures Hex4("2029" + t) == Some(0x2029)
  {
  }

  /** A two-character escape reads back as c. */
  lemma ReadShort(e: string, c: char, t: string)
    requires |e| == 2 && e[0] == '\\' && e[1] != 'u'
    requires ReadEscape(e[1..]) == Some(Unit(c, 1))
    ensures ReadString(e + t) == Prepend(c, ReadString(t))
  {
    var s := e + t;
    assert s[1..][0] == e[1..][0] == e[1];
    assert ReadEscape(s[1..]) == Some(Unit(c, 1));
    assert s[2..] == t;
  }

  /** So does a six-character one. */
  lemma ReadLong(hex: string, c: char, t: string)
    requires |hex| == 4
    requires Hex4(hex + t) == Some(c as int) && c as int < 0xD800
    ensures ReadString("\\u" + hex + t) == Prepend(c, ReadString(t))
  {
    var s := "\\u" + hex + t;
    assert s[1..][0] == 'u';
    assert s[1..][1..] == hex + t;
    assert ReadCodeUnit(hex + t) == Some(Unit(c, 4));
    assert ReadEscape(s[1..]) == Some(Unit(c, 5));
    assert s[6..] == t;
  }

  lemma ReadEscapedChar(c: char, t: string)
    ensures ReadString(EscapeChar(c) + t) == Prepend(c, ReadString(t))
  {
    var e := EscapeChar(c);
    if |e| == 1 {
      assert (e + t)[1..] == t;
    } else if |e| == 2 {
      ReadShort(e, c, t);
    } else if c as int < 32 {
      var hex := "00" + [HexDigit(c as int / 16), HexDigit(c as int % 16)];
      ReadHex(c as int, t);
      assert e == "\\u" + hex;
      ReadLong(hex, c, t);
    } else {
      var hex := if c as int == 0x2028 then "2028" else "2029";
      ReadLineSeparators(t);
      assert e == "\\u" + hex;
      ReadLong(hex, c, t);
    }
  }

  lemma {:induction false} ReadEscaped(s: string, t: string)
    ensures ReadString(Escape(s) + ("\"" + t)) == Some(Token(s, t))
  {
    var q := "\"" + t;
    if s == "" {
      assert Escape(s) + q == q && q[1..] == t;
    } else {
      ReadEscaped(s[1..], t);
      ReadEscapedChar(s[0], Escape(s[1..]) + q);
      ReadOneMore(EscapeChar(s[0]), Escape(s[1..]), q, s[0], s[1..], t);
      assert s == [s[0]] + s[1..];
    }
  }

  lemma ReadOneMore(e: string, rest: string, q: string, c: char, s: string, t: string)
    requires ReadString(e + (rest + q)) == Prepend(c, ReadString(rest + q))
    requires ReadString(rest + q) == Some(Token(s, t))
    ensures ReadString(e + rest + q) == Some(Token([c] + s, t))
  {
    Assoc(e, rest, q);
  }

  lemma Assoc(a: string, b: string, c: string)
    ensures a + b + c == a + (b + c)
  {
  }

  lemma {:induction false} PlainEscape(s: string)
    requires forall i :: 0 <= i < |s| ==> 'a' <= s[i] <= 'z'
    ensures Escape(s) == s
  {
    if s != "" {
      PlainEscape(s[1..]);
      assert s == [s[0]] + s[1..];
    }
  }

  function Member(key: string, text: string, rest: string): string {
    "\"" + (key + ("\"" + (":\"" + (Escape(text) + ("\"" + rest)))))
  }

  /** One member is read and handed on with what follows it. */
  lemma ReadMember(key: string, text: string, rest: string, entry: CachedEntry)
    requires key == "digest" || key == "error"
    ensures ReadMembers(Member(key, text, rest), entry) == Handed(entry, key, text, rest)
  {
    var value := Escape(text) + ("\"" + rest);
    KeyToken(key, ":\"" + value);
    ReadEscaped(text, rest);
    OpenAndColon(key + ("\"" + (":\"" + value)), value);
    ReadOneMember(Member(key, text, rest), entry, Token(key, ":\"" + value), Token(text, rest));
  }

  lemma KeyToken(key: string, after: string)
    requires key == "digest" || key == "error"
    ensures ReadString(key + ("\"" + after)) == Some(Token(key, after))
  {
    PlainEscape(key);
    ReadEscaped(key, after);
  }

  lemma OpenAndColon(a: string, b: string)
    ensures ("\"" + a)[0] == '\"' && ("\"" + a)[1..] == a
    ensures |":\"" + b| >= 2 && (":\"" + b)[..2] == ":\"" && (":\"" + b)[2..] == b
  {
  }

  function Handed(entry: CachedEntry, key: string, text: string, rest: string): Option<CachedEntry> {
    var updated :=
      if key == "digest" then entry.(digest := text)
      else if key == "error" then entry.(error := text)
      else entry;
    if rest == "}" then Some(updated)
    else if rest != "" && rest[0] == ',' then ReadMembers(rest[1..], updated)
    else None
  }

  lemma ReadOneMember(s: string, entry: CachedEntry, key: Token, member: Token)
    requires s != "" && s[0] == '\"' && ReadString(s[1..]) == Some(key)
    requires |key.rest| >= 2 && key.rest[..2] == ":\"" && ReadString(key.rest[2..]) == Some(member)
    ensures ReadMembers(s, entry) == Handed(entry, key.text, member.text, member.rest)
  {
  }

  lemma ErrorMemberText(text: string)
    ensures Member("error", text, "}") == "\"error\":\"" + Escape(text) + "\"}"
  {
  }

  lemma DigestMemberText(text: string, rest: string)
    ensures Member("digest", text, rest) == "\"digest\":\"" + Escape(text) + "\"" + rest
  {
  }

  lemma Regroup(a: string, b: string, c: string, d: string, e: string, f: string)
    ensures a + b + (c + d) + e + f == a + (b + c + (d + e + f))
  {
  }

  lemma EntryText(digest: string, error: string)
    ensures FormatEntry(digest, error) == "{" + Member("digest", digest, "," + Member("error", error, "}"))
  {
    ErrorMemberText(error);
    var last := "\"error\":\"" + Escape(error) + "\"}";
    DigestMemberText(digest, "," + last);
    var open, comma := "{\"digest\":\"", ",\"error\":\"";
    assert "\",\"error\":\"" == "\"" + comma;
    Regroup(open, Escape(digest), "\"", comma, Escape(error), "\"}");
    var tail := comma + Escape(error) + "\"}";
    assert tail == "," + last by {
      assert comma == "," + "\"error\":\"";
    }
    assert open == "{" + "\"digest\":\"";
    Regroup2("{", "\"digest\":\"", Escape(digest), "\"", tail);
  }

  lemma Regroup2(a: string, b: string, c: string, d: string, e: string)
    ensures a + b + (c + d + e) == a + (b + c + d + e)
  {
  }

  /** Whatever the digest and the error text are, the stored entry decodes to exactly that pair. */
  lemma EntryRoundTrip(digest: string, error: string)
    ensures DecodeEntry(FormatEntry(digest, error)) == Some(CachedEntry(digest, error))
  {
    var last := Member("error", error, "}");
    var first := Member("digest", digest, "," + last);
    EntryText(digest, error);
    assert ("{" + first)[1..] == first;
    assert ("," + last)[1..] == last;
    ReadMember("digest", digest, "," + last, CachedEntry("", ""));
    ReadMember("error", error, "}", CachedEntry(digest, ""));
  }
}
