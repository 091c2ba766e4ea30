/** The provider side of the schema: the provider profile, the service
    listing with its promotion flags, and the review list a service keeps as
    JSON text in its `reviews` column. */
module ProviderModels {
  import opened Common

  datatype ServiceProvider = ServiceProvider(
    email: string,
    username: string,
    phoneNumber: string,
    address: string,
    name: string)

  predicate ProviderFits(p: ServiceProvider) {
    |p.username| <= MaxUsernameLength && |p.phoneNumber| <= MaxPhoneLength && |p.name| <= MaxNameLength
  }

  /** A service row. `reviews` is the stored JSON text, not the decoded list. */
  datatype Service = Service(
    provider: Id,
    price: int,
    description: string,
    serviceName: string,
    reviews: string,
    isTodaysSpecial: bool,
    isDealOfTheDay: bool)

  predicate ServiceFits(s: Service) {
    FitsMoney(s.price) && |s.serviceName| <= MaxNameLength
  }

  /** The default of the `reviews` column. */
  const EmptyReviews := "[]"

  /** A service as the table creates it when only the required columns are
      given: no reviews, neither flag set. */
  function NewService(provider: Id, price: int, description: string, serviceName: string): (s: Service)
    ensures s.provider == provider && s.price == price
    ensures s.description == description && s.serviceName == serviceName
    ensures !s.isTodaysSpecial && !s.isDealOfTheDay
    ensures GetReviews(s) == Some([])
  {
    Service(provider, price, description, serviceName, EmptyReviews, false, false)
  }

  /** `ServiceProvider.__str__`. */
  function ProviderString(p: ServiceProvider): (r: string)
    ensures |r| == |p.email| + 3 + |p.name|
    ensures r[..|p.email|] == p.email && r[|r| - |p.name|..] == p.name
    ensures r[|p.email|..|p.email| + 3] == " - "
  {
    p.email + " - " + p.name
  }

  // ---------------------------------------------------------------------
  // The review list: `json.dumps` of a list of strings (default separators,
  // ASCII-only output) and the part of `json.loads` that reads such a list.
  // ---------------------------------------------------------------------

  predicate IsJsonSpace(c: char) {
    c == ' ' || c == '\t' || c == '\n' || c == '\r'
  }

  predicate IsHighSurrogate(v: int) {
    0xD800 <= v < 0xDC00
  }

  predicate IsLowSurrogate(v: int) {
    0xDC00 <= v < 0xE000
  }

  function HexDigit(d: nat): (c: char)
    requires d < 16
  {
    if d < 10 then ('0' as int + d) as char else ('a' as int + d - 10) as char
  }

  function HexValue(c: char): (r: Option<nat>)
    ensures r.Some? ==> r.value < 16
  {
    if '0' <= c <= '9' then Some(c as int - '0' as int)
    else if 'a' <= c <= 'f' then Some(c as int - 'a' as int + 10)
    else if 'A' <= c <= 'F' then Some(c as int - 'A' as int + 10)
    else None
  }

  /** The six-character escape `\uXXXX`, hexadecimal in lower case. */
  function UnicodeEscape(v: nat): (r: string)
    requires v < 0x10000
    ensures |r| == 6 && r[0] == '\\' && r[1] == 'u'
  {
    ['\\', 'u', HexDigit(v / 16 / 16 / 16), HexDigit(v / 16 / 16 % 16), HexDigit(v / 16 % 16), HexDigit(v % 16)]
  }

  /** Four hexadecimal digits, upper or lower case. */
  function ParseHex4(s: string): (r: Option<nat>)
    requires |s| >= 4
    ensures r.Some? ==> r.value < 0x10000
  {
    var h0, h1, h2, h3 := HexValue(s[0]), HexValue(s[1]), HexValue(s[2]), HexValue(s[3]);
    if h0.Some? && h1.Some? && h2.Some? && h3.Some? then
      Some(((h0.value * 16 + h1.value) * 16 + h2.value) * 16 + h3.value)
    else
      None
  }

  /** How one character of a string is written inside a JSON string
      literal: the two-character escapes for quote, backslash and the named
      control characters, printable ASCII as itself, and everything else as
      `\uXXXX`, a surrogate pair for characters beyond the 16-bit range. */
  function EscapeChar(c: char): (r: string)
    ensures |r| > 0
  {
    if c == '"' then ['\\', '"']
    else if c == '\\' then ['\\', '\\']
    else if c == '\n' then ['\\', 'n']
    else if c == '\r' then ['\\', 'r']
    else if c == '\t' then ['\\', 't']
    else if c as int == 8 then ['\\', 'b']
    else if c as int == 12 then ['\\', 'f']
    else if ' ' <= c <= '~' then [c]
    else if c as int < 0x10000 then UnicodeEscape(c as int)
    else
      var v := c as int - 0x10000;
      UnicodeEscape(0xD800 + v / 0x400) + UnicodeEscape(0xDC00 + v % 0x400)
  }

  function Escape(s: string): string {
    if s == [] then [] else EscapeChar(s[0]) + Escape(s[1..])
  }

  function Quote(s: string): string {
    ['"'] + Escape(s) + ['"']
  }

  /** The items of a list, separated by `", "`. */
  function JoinQuoted(xs: seq<string>): string {
    if xs == [] then []
    else if |xs| == 1 then Quote(xs[0])
    else Quote(xs[0]) + ", " + JoinQuoted(xs[1..])
  }

  /** `json.dumps(xs)` for a list of strings: a bracketed text, which is
      `[]` exactly for the empty list. */
  function EncodeReviews(xs: seq<string>): (r: string)
    ensures |r| >= 2 && r[0] == '[' && r[|r| - 1] == ']'
    ensures r == "[]" <==> xs == []
  {
    assert xs != [] ==> JoinQuoted(xs) != [] by {
      if xs != [] { JoinQuotedStartsWithQuote(xs); }
    }
    "[" + JoinQuoted(xs) + "]"
  }

  function SkipSpace(s: string): (r: string)
    ensures |r| <= |s|
    ensures r == [] || !IsJsonSpace(r[0])
  {
    if s != [] && IsJsonSpace(s[0]) then SkipSpace(s[1..]) else s
  }

  /** Reads the escape that follows a backslash: the character it stands for
      and the text after it. A lone surrogate has no character to stand for
      and is refused. */
  function ParseEscape(s: string): (r: Option<(char, string)>)
    ensures r.Some? ==> |r.value.1| < |s|
  {
    if s == [] then None
    else if s[0] == '"' then Some(('"', s[1..]))
    else if s[0] == '\\' then Some(('\\', s[1..]))
    else if s[0] == '/' then Some(('/', s[1..]))
    else if s[0] == 'b' then Some((8 as char, s[1..]))
    else if s[0] == 'f' then Some((12 as char, s[1..]))
    else if s[0] == 'n' then Some(('\n', s[1..]))
    else if s[0] == 'r' then Some(('\r', s[1..]))
    else if s[0] == 't' then Some(('\t', s[1..]))
    else if s[0] == 'u' && |s| >= 5 then
      match ParseHex4(s[1..5])
      case None => None
      case Some(v) =>
        if IsLowSurrogate(v) then None
        else if !IsHighSurrogate(v) then Some((v as char, s[5..]))
        else if |s| >= 11 && s[5] == '\\' && s[6] == 'u' then
          match ParseHex4(s[7..11])
          case None => None
          case Some(w) =>
            if IsLowSurrogate(w) then Some(((0x10000 + (v - 0xD800) * 0x400 + (w - 0xDC00)) as char, s[11..]))
            else None
        else None
    else None
  }

  /** Reads the rest of a string literal up to its closing quote: the
      decoded text and what follows the quote. Raw control characters are
      refused, as `json.loads` does by default. */
  function ParseStringBody(s: string): (r: Option<(string, string)>)
    ensures r.Some? ==> |r.value.1| < |s|
    decreases |s|
  {
    if s == [] then None
    else if s[0] == '"' then Some(([], s[1..]))
    else if s[0] == '\\' then
      match ParseEscape(s[1..])
      case None => None
      case Some((c, rest)) =>
        match ParseStringBody(rest)
        case None => None
        case Some((x, t)) => Some(([c] + x, t))
    else if s[0] < ' ' then None
    else
      match ParseStringBody(s[1..])
      case None => None
      case Some((x, t)) => Some(([s[0]] + x, t))
  }

  function ParseString(s: string): (r: Option<(string, string)>)
    ensures r.Some? ==> |r.value.1| < |s|
  {
    if s != [] && s[0] == '"' then ParseStringBody(s[1..]) else None
  }

  /** Reads one or more string items of a list, then its closing bracket. */
  function ParseItems(s: string): Option<seq<string>>
    decreases |s|
  {
    match ParseString(s)
    case None => None
    case Some((x, rest)) =>
      var r := SkipSpace(rest);
      if r != [] && r[0] == ']' then
        if SkipSpace(r[1..]) == [] then Some([x]) else None
      else if r != [] && r[0] == ',' then
        match ParseItems(SkipSpace(r[1..]))
        case None => None
        case Some(xs) => Some([x] + xs)
      else None
  }

  /** `json.loads(text)` where the text holds a list of strings; `None`
      where it would raise. A text that decodes opens a list after its
      leading whitespace; an empty or blank text never decodes. */
  function DecodeReviews(text: string): (r: Option<seq<string>>)
    ensures r.Some? ==> exists i :: 0 <= i < |text| && text[i] == '[' && forall k :: 0 <= k < i ==> IsJsonSpace(text[k])
    ensures (forall k :: 0 <= k < |text| ==> IsJsonSpace(text[k])) ==> r.None?
  {
    var t := SkipSpace(text);
    SkipSpaceSuffix(text);
    if t == [] || t[0] != '[' then None
    else
      var u := SkipSpace(t[1..]);
      if u != [] && u[0] == ']' then
        if SkipSpace(u[1..]) == [] then Some([]) else None
      else
        ParseItems(u)
  }

  /** `Service.get_reviews`: the decoded review list. A service whose
      column holds `json.dumps(xs)` yields `xs`. */
  function GetReviews(s: Service): (r: Option<seq<string>>)
    ensures forall xs :: s.reviews == EncodeReviews(xs) ==> r == Some(xs)
  {
    assert forall xs :: s.reviews == EncodeReviews(xs) ==> DecodeReviews(s.reviews) == Some(xs) by {
      forall xs | s.reviews == EncodeReviews(xs) ensures DecodeReviews(s.reviews) == Some(xs) {
        DecodeEncode(xs);
      }
    }
    DecodeReviews(s.reviews)
  }

  lemma HexRoundTrip(v: nat, t: string)
    requires v < 0x10000
    ensures ParseHex4(UnicodeEscape(v)[2..] + t) == Some(v)
  {
    var s := UnicodeEscape(v)[2..] + t;
    assert HexValue(s[0]) == Some(v / 16 / 16 / 16);
    assert HexValue(s[1]) == Some(v / 16 / 16 % 16);
    assert HexValue(s[2]) == Some(v / 16 % 16);
    assert HexValue(s[3]) == Some(v % 16);
  }

  /** A `\uXXXX` escape of a value outside the surrogate range reads back as
      that character. */
  lemma UnicodeEscapeParses(c: char, t: string)
    requires c as int < 0x10000
    ensures ParseEscape(UnicodeEscape(c as int)[1..] + t) == Some((c, t))
  {
    var s := UnicodeEscape(c as int)[1..] + t;
    HexRoundTrip(c as int, t);
    assert s[1..5] + s[5..] == UnicodeEscape(c as int)[2..] + t;
    assert s[1..5] == (UnicodeEscape(c as int)[2..] + t)[..4];
    assert ParseHex4(s[1..5]) == Some(c as int);
    assert s[5..] == t;
  }

  /** A surrogate pair reads back as the character beyond 16 bits it encodes. */
  lemma SurrogatePairParses(c: char, t: string)
    requires c as int >= 0x10000
    ensures var v := c as int - 0x10000;
            ParseEscape((UnicodeEscape(0xD800 + v / 0x400) + UnicodeEscape(0xDC00 + v % 0x400))[1..] + t)
              == Some((c, t))
  {
    var v := c as int - 0x10000;
    var hi, lo := 0xD800 + v / 0x400, 0xDC00 + v % 0x400;
    assert 0x10000 + (hi - 0xD800) * 0x400 + (lo - 0xDC00) == c as int;
    PairParses(hi, lo, t);
  }

  /** A high and a low surrogate escape in a row read as the one character
      they encode, leaving the rest untouched. */
  lemma PairParses(hi: nat, lo: nat, t: string)
    requires IsHighSurrogate(hi) && IsLowSurrogate(lo)
    ensures ParseEscape((UnicodeEscape(hi) + UnicodeEscape(lo))[1..] + t)
              == Some(((0x10000 + (hi - 0xD800) * 0x400 + (lo - 0xDC00)) as char, t))
  {
    var e1, e2 := UnicodeEscape(hi), UnicodeEscape(lo);
    var s := (e1 + e2)[1..] + t;
    assert s == e1[1..] + (e2 + t);
    HexRoundTrip(hi, e2 + t);
    assert s[1..5] == (e1[2..] + (e2 + t))[..4];
    assert ParseHex4(s[1..5]) == Some(hi);
    assert s[5..] == e2 + t;
    HexRoundTrip(lo, t);
    assert s[7..11] == (e2[2..] + t)[..4];
    assert ParseHex4(s[7..11]) == Some(lo);
    assert s[11..] == t;
  }

  /** One escaped character in front of the rest of a literal adds exactly
      that character to what is read. */
  lemma EscapeCharStep(c: char, rest: string)
    requires ParseStringBody(rest).Some?
    ensures ParseStringBody(EscapeChar(c) + rest)
              == Some(([c] + ParseStringBody(rest).value.0, ParseStringBody(rest).value.1))
  {
    var e := EscapeChar(c);
    var s := e + rest;
    EscapeReads(c, rest);
    if e == [c] {
      assert s[1..] == rest;
    } else {
      assert s[0] == '\\';
      assert s[1..] == e[1..] + rest;
    }
  }

  /** A character is written either as itself (a printable character that
      needs no escape) or as a backslash followed by an escape that reads
      back as that character. */
  lemma EscapeReads(c: char, rest: string)
    ensures var e := EscapeChar(c);
            (e == [c] && ' ' <= c && c != '"' && c != '\\')
            || (e[0] == '\\' && ParseEscape(e[1..] + rest) == Some((c, rest)))
  {
    var e := EscapeChar(c);
    if e != [c] {
      assert e[0] == '\\';
      if c as int < 0x10000 && e == UnicodeEscape(c as int) {
        UnicodeEscapeParses(c, rest);
      } else if c as int >= 0x10000 && !(' ' <= c <= '~') {
        SurrogatePairParses(c, rest);
      }
    }
  }

  /** The body of a quoted literal reads back as the text it escapes. */
  lemma {:induction false} EscapedBodyParses(x: string, t: string)
    ensures ParseStringBody(Escape(x) + ['"'] + t) == Some((x, t))
    decreases |x|
  {
    if x == [] {
      assert Escape(x) + ['"'] + t == ['"'] + t;
      assert (['"'] + t)[1..] == t;
    } else {
      var rest := Escape(x[1..]) + ['"'] + t;
      EscapedBodyParses(x[1..], t);
      EscapeCharStep(x[0], rest);
      assert Escape(x) + ['"'] + t == EscapeChar(x[0]) + rest;
      assert [x[0]] + x[1..] == x;
    }
  }

  lemma QuotedParses(x: string, t: string)
    ensures ParseString(Quote(x) + t) == Some((x, t))
  {
    var s := Quote(x) + t;
    assert s[1..] == Escape(x) + ['"'] + t;
    EscapedBodyParses(x, t);
  }

  /** Skipping whitespace drops a prefix of the text, all of it whitespace. */
  lemma {:induction false} SkipSpaceSuffix(s: string)
    ensures var r := SkipSpace(s);
            && r == s[|s| - |r|..]
            && forall k :: 0 <= k < |s| - |r| ==> IsJsonSpace(s[k])
    decreases |s|
  {
    if s != [] && IsJsonSpace(s[0]) {
      SkipSpaceSuffix(s[1..]);
    }
  }

  lemma SkipSpaceNone(s: string)
    requires s == [] || !IsJsonSpace(s[0])
    ensures SkipSpace(s) == s
  {
  }

  lemma JoinQuotedStartsWithQuote(xs: seq<string>)
    requires xs != []
    ensures JoinQuoted(xs) != [] && JoinQuoted(xs)[0] == '"'
  {
  }

  /** The last item and the closing bracket. */
  lemma LastItemParses(x: string)
    ensures ParseItems(Quote(x) + "]") == Some([x])
  {
    QuotedParses(x, "]");
    SkipSpaceNone("]");
    assert "]"[1..] == [];
  }

  /** An item, the separator, and the items after it. */
  lemma NextItemParses(x: string, tail: string)
    requires tail != [] && tail[0] == '"' && ParseItems(tail).Some?
    ensures ParseItems(Quote(x) + ", " + tail) == Some([x] + ParseItems(tail).value)
  {
    var rest := ", " + tail;
    assert Quote(x) + ", " + tail == Quote(x) + rest;
    QuotedParses(x, rest);
    SkipSpaceNone(rest);
    assert rest[1..] == " " + tail;
    assert SkipSpace(" " + tail) == SkipSpace(tail);
    SkipSpaceNone(tail);
  }

  /** The items of a non-empty list followed by the closing bracket read back
      as that list. */
  lemma {:induction false} ItemsParse(xs: seq<string>)
    requires xs != []
    ensures ParseItems(JoinQuoted(xs) + "]") == Some(xs)
    decreases |xs|
  {
    if |xs| == 1 {
      assert JoinQuoted(xs) + "]" == Quote(xs[0]) + "]";
      LastItemParses(xs[0]);
      assert [xs[0]] == xs;
    } else {
      var tail := JoinQuoted(xs[1..]) + "]";
      assert JoinQuoted(xs) + "]" == Quote(xs[0]) + ", " + tail;
      JoinQuotedStartsWithQuote(xs[1..]);
      ItemsParse(xs[1..]);
      NextItemParses(xs[0], tail);
      assert [xs[0]] + xs[1..] == xs;
    }
  }

  /** `json.loads(json.dumps(xs)) == xs` for every list of strings. */
  lemma DecodeEncode(xs: seq<string>)
    ensures DecodeReviews(EncodeReviews(xs)) == Some(xs)
  {
    var s := EncodeReviews(xs);
    SkipSpaceNone(s);
    assert s[1..] == JoinQuoted(xs) + "]";
    if xs == [] {
      assert s[1..] == "]";
      SkipSpaceNone("]");
      assert "]"[1..] == [];
    } else {
      assert JoinQuoted(xs)[0] == '"';
      SkipSpaceNone(s[1..]);
      ItemsParse(xs);
    }
  }

  /** The review list `Service.add_review` writes back: the stored list
      decoded, the new review appended, the result encoded again. Decoding
      the new text gives the old list followed by the new review. */
  function AppendReview(text: string, review: string): (r: Option<string>)
    ensures r.Some? <==> DecodeReviews(text).Some?
    ensures r.Some? ==> DecodeReviews(r.value) == Some(DecodeReviews(text).value + [review])
  {
    match DecodeReviews(text)
    case None => None
    case Some(xs) =>
      DecodeEncode(xs + [review]);
      Some(EncodeReviews(xs + [review]))
  }
}
