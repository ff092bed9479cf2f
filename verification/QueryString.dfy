/** Pagination links that carry the active filters (crates/web/src/routes/category.rs): the query string
  * that one request prints, and what the next request reads from it. */
module QueryString {
  import opened Prelude
  import opened Projection
  import opened Search
  import opened Paging
  import Ranking

  type Byte = n: nat | n < 256

  type Bytes = seq<Byte>

  type Params = seq<(string, string)>

  /** UTF-8 as the program uses it: `encode` gives the bytes of a string, `decode` is the lossy decoder. */
  datatype Codec = Codec(encode: string -> Bytes, decode: Bytes -> string)

  function Codes(s: string): Bytes
    requires IsAscii(s)
  {
    seq(|s|, i requires 0 <= i < |s| => s[i] as int)
  }

  predicate IsAscii(s: string) {
    forall i :: 0 <= i < |s| ==> s[i] < 128 as char
  }

  /** Decoding undoes encoding, and ASCII text is its own encoding. */
  ghost predicate IsUtf8(u: Codec) {
    && (forall s :: u.decode(u.encode(s)) == s)
    && (forall s :: IsAscii(s) ==> u.encode(s) == Codes(s))
  }

  const HASH: Byte := 35
  const PERCENT: Byte := 37
  const AMP: Byte := 38
  const PLUS: Byte := 43
  const DOT: Byte := 46
  const SLASH: Byte := 47
  const EQUALS: Byte := 61
  const QUESTION: Byte := 63
  const SPACE: Byte := 32

  // -----------------------------------------------------------------
  // Printing: section 2.1 and section 2.3 of RFC 3986
  // -----------------------------------------------------------------

  predicate Alphanumeric(b: Byte) {
    48 <= b <= 57 || 65 <= b <= 90 || 97 <= b <= 122
  }

  /** Letters, digits, `-`, `.`, `_` and `~`. */
  predicate Unreserved(b: Byte) {
    Alphanumeric(b) || b == 45 || b == 46 || b == 95 || b == 126
  }

  function HexDigit(n: nat): Byte
    requires n < 16
  {
    if n < 10 then 48 + n else 55 + n
  }

  function EncodeByte(b: Byte): Bytes {
    if Unreserved(b) then [b] else [PERCENT, HexDigit(b / 16), HexDigit(b % 16)]
  }

  function EncodeBytes(s: Bytes): Bytes {
    if s == [] then [] else EncodeByte(s[0]) + EncodeBytes(s[1..])
  }

  function EncodeQs(u: Codec, s: string): Bytes {
    EncodeBytes(u.encode(s))
  }

  function PrintPair(u: Codec, p: (string, string)): Bytes {
    EncodeQs(u, p.0) + [EQUALS] + EncodeQs(u, p.1)
  }

  function Print(u: Codec, ps: Params): Bytes {
    if ps == [] then []
    else if |ps| == 1 then PrintPair(u, ps[0])
    else PrintPair(u, ps[0]) + [AMP] + Print(u, ps[1..])
  }

  /** A number as Rust prints it. */
  function Decimal(n: nat): (s: string)
    ensures |s| > 0 && forall i :: 0 <= i < |s| ==> '0' <= s[i] <= '9'
  {
    if n < 10 then [DigitChar(n)] else Decimal(n / 10) + [DigitChar(n % 10)]
  }

  function DigitChar(d: nat): char
    requires d < 10
  {
    "0123456789"[d]
  }

  function WithoutPage(raw: Params): Params {
    if raw == [] then []
    else
      var init, last := WithoutPage(raw[..|raw| - 1]), raw[|raw| - 1];
      if last.0 == "page" then init else init + [last]
  }

  function QueryText(u: Codec, raw: Params, page: UInt32): Bytes {
    var kept := Print(u, WithoutPage(raw));
    (if kept == [] then [] else kept + [AMP]) + u.encode("page") + [EQUALS] + u.encode(Decimal(page))
  }

  function Href(u: Codec, slug: string, query: Bytes): Bytes {
    [SLASH, 99, SLASH] + u.encode(slug) + [QUESTION] + query
  }

  // -----------------------------------------------------------------
  // Reading: section 5.1 of the WHATWG URL Standard
  // -----------------------------------------------------------------

  /** What is before the first `sep`, and what is after it, if there is one. */
  function Cut(s: Bytes, sep: Byte): (r: (Bytes, Option<Bytes>))
    ensures r.1.Some? ==> |r.1.value| < |s|
  {
    if s == [] then ([], None)
    else if s[0] == sep then ([], Some(s[1..]))
    else
      var (before, after) := Cut(s[1..], sep);
      ([s[0]] + before, after)
  }

  function PlusToSpace(s: Bytes): Bytes {
    seq(|s|, i requires 0 <= i < |s| => if s[i] == PLUS then SPACE else s[i])
  }

  function HexValue(b: Byte): Option<nat> {
    if 48 <= b <= 57 then Some(b - 48)
    else if 65 <= b <= 70 then Some(b - 55)
    else if 97 <= b <= 102 then Some(b - 87)
    else None
  }

  /** A `%` that two hexadecimal digits do not follow stands for itself. */
  function PercentDecode(s: Bytes): Bytes {
    if s == [] then []
    else if s[0] == PERCENT && |s| >= 3 && HexValue(s[1]).Some? && HexValue(s[2]).Some? then
      HexByte(s[1], s[2]) + PercentDecode(s[3..])
    else [s[0]] + PercentDecode(s[1..])
  }

  function HexByte(high: Byte, low: Byte): Bytes
    requires HexValue(high).Some? && HexValue(low).Some?
  {
    [HexValue(high).value * 16 + HexValue(low).value]
  }

  function DecodePart(u: Codec, s: Bytes): string {
    u.decode(PercentDecode(PlusToSpace(s)))
  }

  function ParsePair(u: Codec, s: Bytes): (string, string) {
    var (name, value) := Cut(s, EQUALS);
    (DecodePart(u, name), DecodePart(u, if value.Some? then value.value else []))
  }

  /** Empty pieces between `&` signs are skipped. */
  function Parse(u: Codec, s: Bytes): Params
    decreases |s|
  {
    if s == [] then []
    else
      var (piece, rest) := Cut(s, AMP);
      (if piece == [] then [] else [ParsePair(u, piece)]) + (if rest.None? then [] else Parse(u, rest.value))
  }

  /** The query of an address: after the first `?`, before any `#`. */
  function QueryOf(href: Bytes): Option<Bytes> {
    Cut(Cut(href, HASH).0, QUESTION).1
  }

  // -----------------------------------------------------------------
  // Reading undoes printing
  // -----------------------------------------------------------------

  lemma {:induction false} CutAtFirst(before: Bytes, sep: Byte, after: Bytes)
    requires sep !in before
    ensures Cut(before + [sep] + after, sep) == (before, Some(after))
    ensures Cut(before, sep) == (before, None)
  {
    if before != [] {
      CutAtFirst(before[1..], sep, after);
      assert before[0] in before && before == [before[0]] + before[1..];
      assert (before + [sep] + after)[1..] == before[1..] + [sep] + after;
    } else {
      assert (before + [sep] + after)[1..] == after;
    }
  }

  /** Encoded text is made of unreserved bytes and `%` only. */
  lemma {:induction false} EncodedIsClean(s: Bytes)
    ensures forall b :: b in EncodeBytes(s) ==> Unreserved(b) || b == PERCENT
  {
    if s != [] {
      EncodedIsClean(s[1..]);
    }
  }

  lemma HexRoundTrip(b: Byte)
    ensures HexValue(HexDigit(b / 16)) == Some(b / 16) && HexValue(HexDigit(b % 16)) == Some(b % 16)
    ensures HexByte(HexDigit(b / 16), HexDigit(b % 16)) == [b]
  {
  }

  lemma {:induction false} DecodeUndoesEncode(s: Bytes)
    ensures PercentDecode(EncodeBytes(s)) == s
  {
    if s != [] {
      var head, rest := EncodeByte(s[0]), EncodeBytes(s[1..]);
      DecodeUndoesEncode(s[1..]);
      if Unreserved(s[0]) {
        assert (head + rest)[1..] == rest;
      } else {
        HexRoundTrip(s[0]);
        assert (head + rest)[3..] == rest;
        assert (head + rest)[0] == PERCENT && (head + rest)[1] == head[1] && (head + rest)[2] == head[2];
      }
    }
  }

  lemma DecodePartRoundTrip(u: Codec, s: string)
    requires IsUtf8(u)
    ensures DecodePart(u, EncodeQs(u, s)) == s
  {
    EncodedIsClean(u.encode(s));
    var encoded := EncodeQs(u, s);
    assert forall i :: 0 <= i < |encoded| ==> encoded[i] in encoded;
    assert PlusToSpace(encoded) == encoded;
    DecodeUndoesEncode(u.encode(s));
  }

  lemma PairRoundTrip(u: Codec, p: (string, string))
    requires IsUtf8(u)
    ensures ParsePair(u, PrintPair(u, p)) == p
    ensures AMP !in PrintPair(u, p) && HASH !in PrintPair(u, p) && PrintPair(u, p) != []
  {
    EncodedIsClean(u.encode(p.0));
    EncodedIsClean(u.encode(p.1));
    CutAtFirst(EncodeQs(u, p.0), EQUALS, EncodeQs(u, p.1));
    DecodePartRoundTrip(u, p.0);
    DecodePartRoundTrip(u, p.1);
  }

  lemma ParseFirst(u: Codec, piece: Bytes, rest: Bytes)
    requires AMP !in piece && piece != []
    ensures Parse(u, piece) == [ParsePair(u, piece)]
    ensures Parse(u, piece + [AMP] + rest) == [ParsePair(u, piece)] + Parse(u, rest)
  {
    CutAtFirst(piece, AMP, rest);
  }

  /** Every list of parameters survives, empty names and values and every byte included. */
  lemma {:induction false} ParseUndoesPrint(u: Codec, ps: Params)
    requires IsUtf8(u)
    ensures Parse(u, Print(u, ps)) == ps
  {
    if ps != [] {
      PairRoundTrip(u, ps[0]);
      ParseFirst(u, PrintPair(u, ps[0]), Print(u, ps[1..]));
      ParseUndoesPrint(u, ps[1..]);
      assert ps == [ps[0]] + ps[1..];
    }
  }

  /** Every byte but a letter, a digit, `-`, `.`, `_` and `~` is written as `%` and two upper-case hexadecimal
    * digits. */
  lemma EncodedByte(b: Byte)
    ensures var plain := '0' <= b as char <= '9' || 'A' <= b as char <= 'Z' || 'a' <= b as char <= 'z'
                         || b as char in "-._~";
            var hex := "0123456789ABCDEF";
            EncodeByte(b) == if plain then [b] else ['%' as int, hex[b / 16] as int, hex[b % 16] as int]
  {
    assert "-._~"[0] == '-' && "-._~"[1] == '.' && "-._~"[2] == '_' && "-._~"[3] == '~';
    HexDigitMeaning(b / 16);
    HexDigitMeaning(b % 16);
  }

  lemma HexDigitMeaning(n: nat)
    requires n < 16
    ensures HexDigit(n) == "0123456789ABCDEF"[n] as int
  {
    var hex := "0123456789ABCDEF";
    assert hex[0] == '0' && hex[1] == '1' && hex[2] == '2' && hex[3] == '3' && hex[4] == '4' && hex[5] == '5';
    assert hex[6] == '6' && hex[7] == '7' && hex[8] == '8' && hex[9] == '9' && hex[10] == 'A' && hex[11] == 'B';
    assert hex[12] == 'C' && hex[13] == 'D' && hex[14] == 'E' && hex[15] == 'F';
    assert n == 0 || n == 1 || n == 2 || n == 3 || n == 4 || n == 5 || n == 6 || n == 7 || n == 8 || n == 9
           || n == 10 || n == 11 || n == 12 || n == 13 || n == 14 || n == 15;
  }

  // -----------------------------------------------------------------
  // What a browser submits: section 5.2 of the WHATWG URL Standard
  // -----------------------------------------------------------------

  /** A space is a plus sign; letters, digits, `*`, `-`, `.` and `_` stay; everything else is percent-encoded. */
  function FormByte(b: Byte): Bytes {
    if b == SPACE then [PLUS]
    else if Alphanumeric(b) || b == 42 || b == 45 || b == 46 || b == 95 then [b]
    else [PERCENT, HexDigit(b / 16), HexDigit(b % 16)]
  }

  function FormBytes(s: Bytes): Bytes {
    if s == [] then [] else FormByte(s[0]) + FormBytes(s[1..])
  }

  function FormPair(u: Codec, p: (string, string)): Bytes {
    FormBytes(u.encode(p.0)) + [EQUALS] + FormBytes(u.encode(p.1))
  }

  function FormPrint(u: Codec, ps: Params): Bytes {
    if ps == [] then []
    else if |ps| == 1 then FormPair(u, ps[0])
    else FormPair(u, ps[0]) + [AMP] + FormPrint(u, ps[1..])
  }

  lemma {:induction false} FormIsClean(s: Bytes)
    ensures AMP !in FormBytes(s) && EQUALS !in FormBytes(s)
  {
    if s != [] {
      FormIsClean(s[1..]);
    }
  }

  lemma PlusToSpaceAppend(a: Bytes, b: Bytes)
    ensures PlusToSpace(a + b) == PlusToSpace(a) + PlusToSpace(b)
  {
  }

  lemma {:induction false} DecodeUndoesForm(s: Bytes)
    ensures PercentDecode(PlusToSpace(FormBytes(s))) == s
  {
    if s != [] {
      var head, rest := PlusToSpace(FormByte(s[0])), PlusToSpace(FormBytes(s[1..]));
      DecodeUndoesForm(s[1..]);
      PlusToSpaceAppend(FormByte(s[0]), FormBytes(s[1..]));
      if |FormByte(s[0])| == 1 {
        assert head == [s[0]] && (head + rest)[1..] == rest;
      } else {
        HexRoundTrip(s[0]);
        assert head == FormByte(s[0]) && (head + rest)[3..] == rest;
        assert (head + rest)[0] == PERCENT && (head + rest)[1] == head[1] && (head + rest)[2] == head[2];
      }
    }
  }

  lemma FormPairRoundTrip(u: Codec, p: (string, string))
    requires IsUtf8(u)
    ensures ParsePair(u, FormPair(u, p)) == p
    ensures AMP !in FormPair(u, p) && FormPair(u, p) != []
  {
    FormIsClean(u.encode(p.0));
    FormIsClean(u.encode(p.1));
    CutAtFirst(FormBytes(u.encode(p.0)), EQUALS, FormBytes(u.encode(p.1)));
    DecodeUndoesForm(u.encode(p.0));
    DecodeUndoesForm(u.encode(p.1));
  }

  /** Whatever the visitor enters into the filter form, the next request reads it as it was entered. */
  lemma {:induction false} ParseUndoesForm(u: Codec, ps: Params)
    requires IsUtf8(u)
    ensures Parse(u, FormPrint(u, ps)) == ps
  {
    if ps != [] {
      FormPairRoundTrip(u, ps[0]);
      ParseFirst(u, FormPair(u, ps[0]), FormPrint(u, ps[1..]));
      ParseUndoesForm(u, ps[1..]);
      assert ps == [ps[0]] + ps[1..];
    }
  }

  // -----------------------------------------------------------------
  // The page number
  // -----------------------------------------------------------------

  function DigitValue(c: char): Option<nat> {
    if '0' <= c <= '9' then Some(c as int - '0' as int) else None
  }

  /** The value of a non-empty run of digits. */
  function Digits(s: string): Option<nat> {
    if s == [] then None
    else
      var init, last := s[..|s| - 1], DigitValue(s[|s| - 1]);
      if init == [] || last.None? then last
      else if Digits(init).None? then None
      else Some(Digits(init).value * 10 + last.value)
  }

  /** `u32::from_str`: an optional plus sign, then digits that do not overflow. */
  function ParseU32(s: string): Option<UInt32> {
    var n := Digits(if s != [] && s[0] == '+' then s[1..] else s);
    if n.Some? && n.value <= UINT32_MAX then Some(n.value) else None
  }

  lemma DigitRoundTrip(d: nat)
    requires d < 10
    ensures DigitValue(DigitChar(d)) == Some(d)
  {
    assert d == 0 || d == 1 || d == 2 || d == 3 || d == 4 || d == 5 || d == 6 || d == 7 || d == 8 || d == 9;
  }

  lemma {:induction false} DigitsUndoDecimal(n: nat)
    ensures Digits(Decimal(n)) == Some(n)
  {
    DigitRoundTrip(n % 10);
    if n >= 10 {
      DigitsUndoDecimal(n / 10);
      assert Decimal(n)[..|Decimal(n)| - 1] == Decimal(n / 10);
    }
  }

  lemma PageRoundTrip(page: UInt32)
    ensures ParseU32(Decimal(page)) == Some(page)
  {
    DigitsUndoDecimal(page);
    assert '0' <= Decimal(page)[0] <= '9';
  }

  function Zeros(z: nat): string {
    seq(z, _ => '0')
  }

  lemma DigitCharMeaning(c: char)
    requires DigitValue(c).Some?
    ensures DigitValue(c).value < 10 && c == DigitChar(DigitValue(c).value)
  {
    var d := DigitValue(c).value;
    assert d == 0 || d == 1 || d == 2 || d == 3 || d == 4 || d == 5 || d == 6 || d == 7 || d == 8 || d == 9;
  }

  lemma DigitsSnoc(s: string, c: char)
    ensures Digits(s + [c])
         == if s == [] || DigitValue(c).None? then DigitValue(c)
            else if Digits(s).None? then None
            else Some(Digits(s).value * 10 + DigitValue(c).value)
  {
    assert (s + [c])[..|s|] == s;
  }

  lemma Regroup(a: string, b: string, c: char)
    ensures a + (b + [c]) == (a + b) + [c]
  {
  }

  lemma {:induction false} LeadingZero(s: string)
    requires Digits(s).Some?
    ensures Digits(['0'] + s) == Digits(s)
  {
    var init, c := s[..|s| - 1], s[|s| - 1];
    assert s == init + [c] && ['0'] + s == (['0'] + init) + [c];
    DigitsSnoc(['0'] + init, c);
    if init == [] {
      assert ['0'] + init == ['0'];
    } else {
      LeadingZero(init);
    }
  }

  /** Zeros in front change nothing. */
  lemma {:induction false} ZerosInFront(z: nat, s: string)
    requires Digits(s).Some?
    ensures Digits(Zeros(z) + s) == Digits(s)
  {
    if z == 0 {
      assert Zeros(0) + s == s;
    } else {
      ZerosInFront(z - 1, s);
      LeadingZero(Zeros(z - 1) + s);
      assert Zeros(z) + s == ['0'] + (Zeros(z - 1) + s);
    }
  }

  lemma {:induction false} DigitsAreDecimal(s: string) returns (z: nat)
    requires Digits(s).Some?
    ensures s == Zeros(z) + Decimal(Digits(s).value)
  {
    var init, c := s[..|s| - 1], s[|s| - 1];
    assert s == init + [c];
    DigitsSnoc(init, c);
    DigitCharMeaning(c);
    if init == [] {
      z := 0;
      assert Decimal(DigitValue(c).value) == [c];
    } else {
      z := DigitsAreDecimal(init);
      z := DecimalGrows(init, z, Digits(init).value, c);
    }
  }

  lemma DecimalGrows(init: string, z: nat, n: nat, c: char) returns (z': nat)
    requires init == Zeros(z) + Decimal(n) && DigitValue(c).Some?
    ensures init + [c] == Zeros(z') + Decimal(n * 10 + DigitValue(c).value)
  {
    var d := DigitValue(c).value;
    DigitCharMeaning(c);
    if n == 0 {
      z' := z + 1;
      assert Decimal(0) == ['0'] && Zeros(z') == Zeros(z) + ['0'];
    } else {
      z' := z;
      assert (n * 10 + d) / 10 == n && (n * 10 + d) % 10 == d;
      Regroup(Zeros(z), Decimal(n), c);
    }
  }

  /** `s` is a plain numeral for `n`: zeros and then the number as it is printed. */
  ghost predicate Numeral(s: string, n: nat) {
    exists z: nat :: s == Zeros(z) + Decimal(n)
  }

  lemma NumeralMeaning(s: string, n: nat)
    ensures Numeral(s, n) <==> Digits(s) == Some(n)
    ensures Numeral(s, n) ==> s != [] && '0' <= s[0] <= '9'
  {
    if Digits(s) == Some(n) {
      var z := DigitsAreDecimal(s);
    }
    if z: nat :| s == Zeros(z) + Decimal(n) {
      DigitsUndoDecimal(n);
      ZerosInFront(z, Decimal(n));
      assert s[0] == if z == 0 then Decimal(n)[0] else '0';
    }
  }

  /** What is read as a page number: at most one plus sign, then zeros, then a number as it is printed, up to the
    * largest u32. Nothing else is. */
  lemma ParseU32Meaning(s: string, n: UInt32)
    ensures ParseU32(s) == Some(n) <==> Numeral(s, n) || (s != [] && s[0] == '+' && Numeral(s[1..], n))
  {
    NumeralMeaning(s, n);
    if s != [] {
      NumeralMeaning(s[1..], n);
    }
  }

  function ValuesFor(raw: Params, key: string): seq<string> {
    if raw == [] then []
    else
      var init, last := ValuesFor(raw[..|raw| - 1], key), raw[|raw| - 1];
      if last.0 == key then init + [last.1] else init
  }

  datatype ListingQuery = Asked(page: Option<UInt32>) | BadRequest

  /** The typed reading of the same parameters: a repeated or malformed `page` is refused. */
  function AskedPage(raw: Params): ListingQuery {
    var pages := ValuesFor(raw, "page");
    if pages == [] then Asked(None)
    else if |pages| == 1 && ParseU32(pages[0]).Some? then Asked(ParseU32(pages[0]))
    else BadRequest
  }

  lemma {:induction false} ValuesForOne(raw: Params, key: string, i: nat)
    requires i < |raw| && raw[i].0 == key && forall j :: 0 <= j < |raw| && j != i ==> raw[j].0 != key
    ensures ValuesFor(raw, key) == [raw[i].1]
  {
    var init := raw[..|raw| - 1];
    if i < |init| {
      ValuesForOne(init, key, i);
    } else {
      ValuesForNone(init, key);
    }
  }

  lemma {:induction false} ValuesForNone(raw: Params, key: string)
    ensures ValuesFor(raw, key) == [] <==> forall j :: 0 <= j < |raw| ==> raw[j].0 != key
  {
    if raw != [] {
      ValuesForNone(raw[..|raw| - 1], key);
      assert forall j :: 0 <= j < |raw| - 1 ==> raw[j] == raw[..|raw| - 1][j];
    }
  }

  lemma {:induction false} ValuesForTwo(raw: Params, key: string, i: nat, j: nat)
    requires i < j < |raw| && raw[i].0 == key == raw[j].0
    ensures |ValuesFor(raw, key)| >= 2
  {
    var init := raw[..|raw| - 1];
    if j < |init| {
      ValuesForTwo(init, key, i, j);
    } else {
      ValuesForNone(init, key);
      assert init[i] == raw[i];
    }
  }

  /** Which page a request asks for: none without a `page`, the number of the one there is, and a malformed or
    * repeated `page` is a bad request. */
  lemma AskedPageMeaning(raw: Params)
    ensures AskedPage(raw) == Asked(None) <==> forall i :: 0 <= i < |raw| ==> raw[i].0 != "page"
    ensures forall n: UInt32 :: AskedPage(raw) == Asked(Some(n)) <==>
              exists i :: 0 <= i < |raw| && raw[i].0 == "page" && ParseU32(raw[i].1) == Some(n)
                          && forall j :: 0 <= j < |raw| && j != i ==> raw[j].0 != "page"
  {
    ValuesForNone(raw, "page");
    if i :| 0 <= i < |raw| && raw[i].0 == "page" {
      if j :| 0 <= j < |raw| && j != i && raw[j].0 == "page" {
        ValuesForTwo(raw, "page", Min(i, j), Max(i, j));
      } else {
        ValuesForOne(raw, "page", i);
      }
    }
  }

  // -----------------------------------------------------------------
  // The link
  // -----------------------------------------------------------------

  lemma {:induction false} PrintSnoc(u: Codec, ps: Params, p: (string, string))
    ensures Print(u, ps + [p]) == (if ps == [] then [] else Print(u, ps) + [AMP]) + PrintPair(u, p)
  {
    if |ps| == 1 {
      assert (ps + [p])[1..] == [p];
    } else if |ps| > 1 {
      PrintSnoc(u, ps[1..], p);
      assert (ps + [p])[1..] == ps[1..] + [p];
    }
  }

  lemma PrintedIsNotEmpty(u: Codec, ps: Params)
    ensures Print(u, ps) == [] <==> ps == []
  {
  }

  /** The bytes that need no encoding are not encoded. */
  lemma {:induction false} UnreservedStays(s: Bytes)
    requires forall i :: 0 <= i < |s| ==> Unreserved(s[i])
    ensures EncodeBytes(s) == s
  {
    if s != [] {
      UnreservedStays(s[1..]);
    }
  }

  lemma NumberStays(u: Codec, n: nat)
    requires IsUtf8(u)
    ensures EncodeQs(u, Decimal(n)) == u.encode(Decimal(n))
  {
    var s := Decimal(n);
    forall i | 0 <= i < |s|
      ensures s[i] < 128 as char && 48 <= s[i] as int <= 57
    {
      assert '0' <= s[i] <= '9';
    }
    UnreservedStays(u.encode(s));
  }

  lemma PageKeyStays(u: Codec)
    requires IsUtf8(u)
    ensures EncodeQs(u, "page") == u.encode("page")
  {
    assert IsAscii("page");
    assert Codes("page") == [112, 97, 103, 101];
    UnreservedStays(u.encode("page"));
  }

  lemma QueryTextIsPrinted(u: Codec, raw: Params, page: UInt32)
    requires IsUtf8(u)
    ensures QueryText(u, raw, page) == Print(u, WithoutPage(raw) + [("page", Decimal(page))])
  {
    PrintSnoc(u, WithoutPage(raw), ("page", Decimal(page)));
    PrintedIsNotEmpty(u, WithoutPage(raw));
    PageKeyStays(u);
    NumberStays(u, page);
  }

  /** The next request reads the other parameters, in order, and then the new page, once. */
  lemma NextRequestReads(u: Codec, raw: Params, page: UInt32)
    requires IsUtf8(u)
    ensures Parse(u, QueryText(u, raw, page)) == WithoutPage(raw) + [("page", Decimal(page))]
    ensures AskedPage(Parse(u, QueryText(u, raw, page))) == Asked(Some(page))
  {
    var kept, last := WithoutPage(raw), [("page", Decimal(page))];
    QueryTextIsPrinted(u, raw, page);
    ParseUndoesPrint(u, kept + last);
    ValuesAppend(kept, last[0], "page");
    NoPageLeft(raw);
    PageRoundTrip(page);
  }

  lemma ValuesAppend(ps: Params, p: (string, string), key: string)
    ensures ValuesFor(ps + [p], key) == if p.0 == key then ValuesFor(ps, key) + [p.1] else ValuesFor(ps, key)
  {
    assert (ps + [p])[..|ps|] == ps;
  }

  lemma {:induction false} NoPageLeft(raw: Params)
    ensures ValuesFor(WithoutPage(raw), "page") == []
  {
    if raw != [] {
      NoPageLeft(raw[..|raw| - 1]);
      ValuesAppend(WithoutPage(raw[..|raw| - 1]), raw[|raw| - 1], "page");
    }
  }

  /** The loop appends to one string, with `&` in front of every pair but the first. */
  method PaginationHref(u: Codec, slug: string, raw: Params, page: UInt32) returns (href: Bytes)
    ensures href == Href(u, slug, QueryText(u, raw, page))
  {
    var qs: Bytes := [];
    for i := 0 to |raw|
      invariant qs == Print(u, WithoutPage(raw[..i]))
    {
      var (k, v) := raw[i];
      assert raw[..i + 1][..i] == raw[..i];
      if k == "page" {
        continue;
      }
      PrintedIsNotEmpty(u, WithoutPage(raw[..i]));
      PrintSnoc(u, WithoutPage(raw[..i]), (k, v));
      if qs != [] {
        qs := qs + [AMP];
      }
      qs := qs + EncodeQs(u, k);
      qs := qs + [EQUALS];
      qs := qs + EncodeQs(u, v);
    }
    assert raw[..|raw|] == raw;
    if qs != [] {
      qs := qs + [AMP];
    }
    qs := qs + u.encode("page") + [EQUALS];
    qs := qs + u.encode(Decimal(page));
    href := [SLASH, 99, SLASH] + u.encode(slug) + [QUESTION] + qs;
  }

  lemma {:induction false} PrintedHasNoHash(u: Codec, ps: Params)
    requires IsUtf8(u)
    ensures HASH !in Print(u, ps)
  {
    if ps != [] {
      PairRoundTrip(u, ps[0]);
      PrintedHasNoHash(u, ps[1..]);
    }
  }

  ghost predicate LinkReadsBack(u: Codec, slug: string, raw: Params, page: UInt32) {
    QueryOf(Href(u, slug, QueryText(u, raw, page))) == Some(QueryText(u, raw, page))
  }

  lemma CleanSlugReadsBack(u: Codec, slug: string, raw: Params, page: UInt32)
    requires IsUtf8(u) && QUESTION !in u.encode(slug) && HASH !in u.encode(slug)
    ensures LinkReadsBack(u, slug, raw, page)
  {
    var qs := QueryText(u, raw, page);
    QueryTextIsPrinted(u, raw, page);
    PrintedHasNoHash(u, WithoutPage(raw) + [("page", Decimal(page))]);
    var path := [SLASH, 99, SLASH] + u.encode(slug);
    CutAtFirst(path + [QUESTION] + qs, HASH, []);
    CutAtFirst(path, QUESTION, qs);
  }

  lemma {:induction false} CutInside(path: Bytes, sep: Byte, rest: Bytes)
    requires sep in path
    ensures var (before, after) := Cut(path + rest, sep);
            |before| < |path| && after.Some? && |after.value| == |path| - |before| - 1 + |rest|
  {
    assert (path + rest)[1..] == path[1..] + rest;
    if path[0] != sep {
      CutInside(path[1..], sep, rest);
    }
  }

  /** A `?` or `#` in the path ends it early: a query longer than the path is not what is read. */
  lemma MarkedSlugMisreads(u: Codec, slug: string, raw: Params, page: UInt32)
    requires IsUtf8(u) && (QUESTION in u.encode(slug) || HASH in u.encode(slug))
    requires |QueryText(u, raw, page)| > |u.encode(slug)| + 3
    ensures !LinkReadsBack(u, slug, raw, page)
  {
    var qs := QueryText(u, raw, page);
    var path := [SLASH, 99, SLASH] + u.encode(slug);
    var href := path + ([QUESTION] + qs);
    assert href == Href(u, slug, qs);
    if HASH in path {
      CutInside(path, HASH, [QUESTION] + qs);
    } else {
      QueryTextIsPrinted(u, raw, page);
      PrintedHasNoHash(u, WithoutPage(raw) + [("page", Decimal(page))]);
      CutAtFirst(href, HASH, []);
      CutInside(path, QUESTION, [QUESTION] + qs);
    }
  }

  lemma {:induction false} EncodingNeverShrinks(s: Bytes)
    ensures |EncodeBytes(s)| >= |s|
  {
    if s != [] {
      EncodingNeverShrinks(s[1..]);
    }
  }

  /** A parameter list whose query text is longer than `n`. */
  lemma LongQuery(u: Codec, n: nat) returns (raw: Params)
    requires IsUtf8(u)
    ensures |QueryText(u, raw, 1)| > n
  {
    var key := seq(n + 1, _ => 'a');
    raw := [(key, "")];
    assert IsAscii(key) && key[0] == 'a' && "page"[0] == 'p';
    EncodingNeverShrinks(u.encode(key));
    assert raw[..0] == [] && WithoutPage(raw) == raw;
  }

  /** The slug is not encoded, so for every parameter list to be read back the slug must hold neither
    * `?` nor `#`, and that is enough. */
  lemma LinkReadsBackExactly(u: Codec, slug: string)
    requires IsUtf8(u)
    ensures (forall raw, page :: LinkReadsBack(u, slug, raw, page))
       <==> QUESTION !in u.encode(slug) && HASH !in u.encode(slug)
  {
    if QUESTION !in u.encode(slug) && HASH !in u.encode(slug) {
      forall raw, page
        ensures LinkReadsBack(u, slug, raw, page)
      {
        CleanSlugReadsBack(u, slug, raw, page);
      }
    } else {
      var raw := LongQuery(u, |u.encode(slug)| + 3);
      MarkedSlugMisreads(u, slug, raw, 1);
    }
  }

  // -----------------------------------------------------------------
  // The path: sections 3.3 and 5.2.4 of RFC 3986
  // -----------------------------------------------------------------

  function PathOf(href: Bytes): Bytes {
    Cut(Cut(href, HASH).0, QUESTION).0
  }

  predicate DotSegment(s: Bytes) {
    s == [DOT] || s == [DOT, DOT]
  }

  /** What the route `/c/{slug}` takes for the slug: one segment, not empty and not a dot segment, decoded. */
  function SlugBytes(href: Bytes): Option<Bytes> {
    var path := PathOf(href);
    if |path| > 3 && path[..3] == [SLASH, 99, SLASH] && SLASH !in path[3..] && !DotSegment(path[3..])
    then Some(PercentDecode(path[3..])) else None
  }

  predicate EscapeAt(s: Bytes, i: nat) {
    i + 2 < |s| && s[i] == PERCENT && HexValue(s[i + 1]).Some? && HexValue(s[i + 2]).Some?
  }

  ghost predicate HasEscape(s: Bytes) {
    exists i: nat :: EscapeAt(s, i)
  }

  /** Bytes that mean themselves as one segment of a path. */
  ghost predicate PlainSegment(s: Bytes) {
    s != [] && SLASH !in s && QUESTION !in s && HASH !in s && !DotSegment(s) && !HasEscape(s)
  }

  lemma {:induction false} DecodingShrinksExactly(s: Bytes)
    ensures if HasEscape(s) then |PercentDecode(s)| < |s| else PercentDecode(s) == s
  {
    if s != [] && EscapeAt(s, 0) {
      DecodingShrinksExactly(s[3..]);
    } else if s != [] {
      DecodingShrinksExactly(s[1..]);
      assert forall i: nat :: EscapeAt(s[1..], i) <==> EscapeAt(s, i + 1);
      if HasEscape(s) {
        var i: nat :| EscapeAt(s, i);
        assert EscapeAt(s[1..], i - 1);
      }
    }
  }

  lemma {:induction false} CutAfter(path: Bytes, sep: Byte, rest: Bytes)
    requires sep !in path
    ensures Cut(path + rest, sep).0 == path + Cut(rest, sep).0
  {
    if path == [] {
      assert path + rest == rest;
    } else {
      assert path[0] in path && (path + rest)[1..] == path[1..] + rest;
      CutAfter(path[1..], sep, rest);
    }
  }

  lemma PathStopsAtQuery(path: Bytes, query: Bytes)
    requires QUESTION !in path && HASH !in path
    ensures PathOf(path + [QUESTION] + query) == path
  {
    var rest := [QUESTION] + query;
    assert path + [QUESTION] + query == path + rest && rest[1..] == query;
    CutAfter(path, HASH, rest);
    CutAtFirst(path, QUESTION, Cut(query, HASH).0);
    assert path + ([QUESTION] + Cut(query, HASH).0) == path + [QUESTION] + Cut(query, HASH).0;
  }

  lemma {:induction false} CutIsShorter(s: Bytes, sep: Byte)
    ensures |Cut(s, sep).0| <= |s|
  {
    if s != [] {
      CutIsShorter(s[1..], sep);
    }
  }

  lemma PathBreaksOff(path: Bytes, query: Bytes)
    requires QUESTION in path || HASH in path
    ensures |PathOf(path + [QUESTION] + query)| < |path|
  {
    var rest := [QUESTION] + query;
    assert path + [QUESTION] + query == path + rest;
    if HASH in path {
      CutInside(path, HASH, rest);
      CutIsShorter(Cut(path + rest, HASH).0, QUESTION);
    } else {
      CutAfter(path, HASH, rest);
      CutInside(path, QUESTION, Cut(rest, HASH).0);
    }
  }

  /** The slug is not encoded, so the link leads back to it exactly when its bytes mean themselves in a path. */
  lemma PathReadsBackExactly(u: Codec, slug: string, query: Bytes)
    ensures SlugBytes(Href(u, slug, query)) == Some(u.encode(slug)) <==> PlainSegment(u.encode(slug))
  {
    var b := u.encode(slug);
    var path := [SLASH, 99, SLASH] + b;
    assert path[3..] == b && path[..3] == [SLASH, 99, SLASH];
    assert forall x :: x in b ==> x in path;
    if QUESTION in b || HASH in b {
      PathBreaksOff(path, query);
      DecodingShrinksExactly(PathOf(Href(u, slug, query))[Min(3, |PathOf(Href(u, slug, query))|)..]);
    } else {
      PathStopsAtQuery(path, query);
      DecodingShrinksExactly(b);
    }
  }

  datatype Request = Request(slug: string, params: Params)

  /** What the handler of `/c/{slug}` reads from an address, if it is called at all. */
  function ReadRequest(u: Codec, href: Bytes): Option<Request> {
    var slug, query := SlugBytes(href), QueryOf(href);
    if slug.None? then None
    else Some(Request(u.decode(slug.value), if query.None? then [] else Parse(u, query.value)))
  }

  // -----------------------------------------------------------------
  // The filters of the next request
  // -----------------------------------------------------------------

  datatype FilterType = CheckboxOrType | EnumAndType | StringType | NumberType | RangePriceType | RangeGenericType

  datatype Filter = Filter(attribute: string, filterType: FilterType)

  /** How text becomes a number (trimmed, then parsed), and major units become minor ones. */
  datatype Numbers = Numbers(parse: string -> Option<real>, toMinor: real -> Int64)

  /** The first value of `key`, when it is a number. */
  function ParsedNumber(n: Numbers, raw: Params, key: string): Option<real> {
    var values := ValuesFor(raw, key);
    if values == [] then None else n.parse(values[0])
  }

  function CheckboxValues(raw: Params, attribute: string): Option<seq<string>> {
    var values := ValuesFor(raw, "attr_" + attribute);
    if values == [] then None else Some(values)
  }

  function Minor(n: Numbers, x: Option<real>): Option<Int64> {
    if x.Some? then Some(n.toMinor(x.value)) else None
  }

  function FilterCondFor(n: Numbers, f: Filter, raw: Params): Option<FilterCond> {
    match f.filterType
    case CheckboxOrType =>
      var values := CheckboxValues(raw, f.attribute);
      if values.Some? then Some(CheckboxOr(f.attribute, values.value)) else None
    case EnumAndType =>
      var values := CheckboxValues(raw, f.attribute);
      if values.Some? then Some(EnumAnd(f.attribute, values.value)) else None
    case RangeGenericType =>
      var min := ParsedNumber(n, raw, "attr_" + f.attribute + "_min");
      var max := ParsedNumber(n, raw, "attr_" + f.attribute + "_max");
      if min.Some? || max.Some? then Some(RangeGeneric(f.attribute, min, max)) else None
    case RangePriceType =>
      var min := ParsedNumber(n, raw, "price_min");
      var max := ParsedNumber(n, raw, "price_max");
      if min.Some? || max.Some? then Some(RangePrice(Minor(n, min), Minor(n, max))) else None
    case StringType => None
    case NumberType => None
  }

  function BuildFilterConds(n: Numbers, filters: seq<Filter>, raw: Params): seq<FilterCond> {
    if filters == [] then []
    else
      var rest := BuildFilterConds(n, filters[1..], raw);
      var first := FilterCondFor(n, filters[0], raw);
      if first.Some? then [first.value] + rest else rest
  }

  /** Every parameter but `page` keeps its values, in order. */
  lemma {:induction false} OtherValuesKept(raw: Params, key: string)
    requires key != "page"
    ensures ValuesFor(WithoutPage(raw), key) == ValuesFor(raw, key)
  {
    if raw != [] {
      OtherValuesKept(raw[..|raw| - 1], key);
      ValuesAppend(WithoutPage(raw[..|raw| - 1]), raw[|raw| - 1], key);
    }
  }

  /** Both lists give every key but `page` the same values. */
  ghost predicate SameValues(raw: Params, next: Params) {
    forall key :: key != "page" ==> ValuesFor(next, key) == ValuesFor(raw, key)
  }

  lemma NextValues(raw: Params, page: string)
    ensures SameValues(raw, WithoutPage(raw) + [("page", page)])
  {
    forall key | key != "page"
      ensures ValuesFor(WithoutPage(raw) + [("page", page)], key) == ValuesFor(raw, key)
    {
      OtherValuesKept(raw, key);
      ValuesAppend(WithoutPage(raw), ("page", page), key);
    }
  }

  lemma NotPage(key: string)
    requires key != [] && key[0] == 'a'
    ensures key != "page"
  {
    assert "page"[0] == 'p';
  }

  /** No filter looks at `page`. */
  lemma SameFilterCond(n: Numbers, f: Filter, raw: Params, next: Params)
    requires SameValues(raw, next)
    ensures FilterCondFor(n, f, next) == FilterCondFor(n, f, raw)
  {
    var key := "attr_" + f.attribute;
    NotPage(key);
    NotPage(key + "_min");
    NotPage(key + "_max");
    assert ValuesFor(next, "price_min") == ValuesFor(raw, "price_min");
    assert ValuesFor(next, "price_max") == ValuesFor(raw, "price_max");
  }

  lemma {:induction false} SameFilters(n: Numbers, filters: seq<Filter>, raw: Params, next: Params)
    requires SameValues(raw, next)
    ensures BuildFilterConds(n, filters, next) == BuildFilterConds(n, filters, raw)
  {
    if filters != [] {
      SameFilterCond(n, filters[0], raw, next);
      SameFilters(n, filters[1..], raw, next);
    }
  }

  lemma {:induction false} ValuesForMeaning(raw: Params, key: string, value: string)
    ensures value in ValuesFor(raw, key) <==> (key, value) in raw
  {
    if raw != [] {
      var init, last := raw[..|raw| - 1], raw[|raw| - 1];
      ValuesForMeaning(init, key, value);
      assert raw == init + [last];
    }
  }

  /** A filter without values is not added, so it lets every product through. */
  predicate LetsThrough(t: Tables, id: string, cond: Option<FilterCond>)
    requires id in t.cards
  {
    cond.Some? ==> Satisfies(t, id, cond.value)
  }

  /** What ticking boxes asks for: one of the ticked values, or all of them. */
  lemma TickedValuesMeaning(n: Numbers, f: Filter, raw: Params, t: Tables, id: string)
    requires id in t.cards
    ensures var key := "attr_" + f.attribute;
            var ticked := set p | p in raw && p.0 == key :: p.1;
            var through := LetsThrough(t, id, FilterCondFor(n, f, raw));
            && (f.filterType.CheckboxOrType? ==>
                 (through <==> ticked == {} || exists v :: v in ticked && HasText(t, id, f.attribute, v)))
            && (f.filterType.EnumAndType? ==>
                 (through <==> forall v :: v in ticked ==> HasText(t, id, f.attribute, v)))
  {
    var key := "attr_" + f.attribute;
    var ticked := set p | p in raw && p.0 == key :: p.1;
    var values := ValuesFor(raw, key);
    forall v
      ensures v in values <==> v in ticked
    {
      ValuesForMeaning(raw, key, v);
      if v in ticked {
        var p :| p in raw && p.0 == key && p.1 == v;
        assert p == (key, v);
      }
    }
    if values != [] {
      assert values[0] in ticked;
    }
  }

  /** The conditions built from a request let a product through exactly when each configured filter does; filters
    * for free text and plain numbers are never asked for. */
  lemma {:induction false} BuiltFiltersMeaning(n: Numbers, filters: seq<Filter>, raw: Params, t: Tables, id: string)
    requires id in t.cards
    ensures (forall cond :: cond in BuildFilterConds(n, filters, raw) ==> Satisfies(t, id, cond))
       <==> forall f :: f in filters && !f.filterType.StringType? && !f.filterType.NumberType? ==>
              LetsThrough(t, id, FilterCondFor(n, f, raw))
  {
    if filters != [] {
      BuiltFiltersMeaning(n, filters[1..], raw, t, id);
      var first, rest := FilterCondFor(n, filters[0], raw), BuildFilterConds(n, filters[1..], raw);
      assert BuildFilterConds(n, filters, raw) == if first.Some? then [first.value] + rest else rest;
      assert forall f :: f in filters <==> f == filters[0] || f in filters[1..];
    }
  }

  /** No box of this name is ticked twice. */
  ghost predicate TickedOnce(raw: Params, key: string) {
    forall i, j :: 0 <= i < j < |raw| && raw[i].0 == key && raw[j].0 == key ==> raw[i].1 != raw[j].1
  }

  lemma {:induction false} TickedOnceExactly(raw: Params, key: string)
    ensures Distinct(ValuesFor(raw, key)) <==> TickedOnce(raw, key)
  {
    if raw != [] {
      var init, last := raw[..|raw| - 1], raw[|raw| - 1];
      TickedOnceExactly(init, key);
      DistinctSnoc(ValuesFor(init, key), last.1);
      ValuesForMeaning(init, key, last.1);
      if last.0 == key && TickedOnce(init, key) && last in init {
        var i :| 0 <= i < |init| && init[i] == last;
        assert raw[i].0 == key && raw[|init|].0 == key && raw[i].1 == raw[|init|].1;
      }
    }
  }

  /** A filter list repeats a value exactly when the request ticks a box of an EnumAnd filter twice. */
  lemma {:induction false} RepeatsExactly(n: Numbers, filters: seq<Filter>, raw: Params)
    ensures NothingRepeated(BuildFilterConds(n, filters, raw))
       <==> forall f :: f in filters && f.filterType.EnumAndType? ==> TickedOnce(raw, "attr_" + f.attribute)
  {
    if filters != [] {
      RepeatsExactly(n, filters[1..], raw);
      TickedOnceExactly(raw, "attr_" + filters[0].attribute);
      var first, rest := FilterCondFor(n, filters[0], raw), BuildFilterConds(n, filters[1..], raw);
      assert BuildFilterConds(n, filters, raw) == if first.Some? then [first.value] + rest else rest;
      assert forall f :: f in filters <==> f == filters[0] || f in filters[1..];
      if first.Some? {
        assert forall cond :: cond in [first.value] + rest <==> cond == first.value || cond in rest;
      }
    }
  }

  /** What a request to a category page has before it, over a coherent catalog: newest first, the published products
    * of the category that every configured filter lets through; but nothing at all when the request ticks one box
    * of an EnumAnd filter twice. */
  lemma RequestedListing(engine: TextEngine, c: Catalog, n: Numbers, category: string, filters: seq<Filter>,
                         raw: Params)
    requires Coherent(c)
    ensures var ids := CategoryIds(engine, c, category, BuildFilterConds(n, filters, raw));
            if forall f :: f in filters && f.filterType.EnumAndType? ==> TickedOnce(raw, "attr_" + f.attribute) then
              && NewestFirst(c, ids)
              && forall id :: id in ids <==>
                   && id in c.tables.cards && c.tables.cards[id].status == "published"
                   && (exists a :: (id, a) in c.tables.attrs && c.tables.attrs[(id, a)].category == category)
                   && forall f :: f in filters && !f.filterType.StringType? && !f.filterType.NumberType? ==>
                        LetsThrough(c.tables, id, FilterCondFor(n, f, raw))
            else ids == []
  {
    var conds := BuildFilterConds(n, filters, raw);
    CategoryIdsMeaning(engine, c, category, conds);
    RepeatsExactly(n, filters, raw);
    forall id | id in c.tables.cards
      ensures (forall cond :: cond in conds ==> Satisfies(c.tables, id, cond))
         <==> forall f :: f in filters && !f.filterType.StringType? && !f.filterType.NumberType? ==>
                LetsThrough(c.tables, id, FilterCondFor(n, f, raw))
    {
      BuiltFiltersMeaning(n, filters, raw, c.tables, id);
    }
  }

  /** The first value of a parameter as a number: what a bound of a range is read from. */
  ghost predicate Bound(n: Numbers, raw: Params, key: string, x: real) {
    exists i :: 0 <= i < |raw| && FirstWith(raw, key, i) && n.parse(raw[i].1) == Some(x)
  }

  predicate FirstWith(raw: Params, key: string, i: int)
    requires 0 <= i < |raw|
  {
    raw[i].0 == key && forall j :: 0 <= j < i ==> raw[j].0 != key
  }

  lemma {:induction false} FirstValue(raw: Params, key: string)
    ensures ValuesFor(raw, key) == [] <==> forall i :: 0 <= i < |raw| ==> raw[i].0 != key
    ensures ValuesFor(raw, key) != [] ==>
              exists i :: 0 <= i < |raw| && FirstWith(raw, key, i) && raw[i].1 == ValuesFor(raw, key)[0]
  {
    if raw != [] {
      var init, last := raw[..|raw| - 1], raw[|raw| - 1];
      FirstValue(init, key);
      assert forall i :: 0 <= i < |init| ==> raw[i] == init[i];
      if ValuesFor(init, key) != [] {
        var i :| 0 <= i < |init| && FirstWith(init, key, i) && init[i].1 == ValuesFor(init, key)[0];
        assert FirstWith(raw, key, i);
      } else if last.0 == key {
        assert FirstWith(raw, key, |init|);
      }
    }
  }

  lemma BoundMeaning(n: Numbers, raw: Params, key: string, x: real)
    ensures Bound(n, raw, key, x) <==> ParsedNumber(n, raw, key) == Some(x)
  {
    FirstValue(raw, key);
    if Bound(n, raw, key, x) {
      var i :| 0 <= i < |raw| && FirstWith(raw, key, i) && n.parse(raw[i].1) == Some(x);
      var k :| 0 <= k < |raw| && FirstWith(raw, key, k) && raw[k].1 == ValuesFor(raw, key)[0];
      assert i == k;
    }
  }

  /** What the range fields ask for: nothing when neither is a number, and otherwise both bounds. */
  lemma RangeFieldsMeaning(n: Numbers, f: Filter, raw: Params, t: Tables, id: string)
    requires id in t.cards && f.filterType.RangeGenericType?
    ensures var a := f.attribute;
            var least, most := "attr_" + a + "_min", "attr_" + a + "_max";
            LetsThrough(t, id, FilterCondFor(n, f, raw)) <==>
              && (forall x :: Bound(n, raw, least, x) ==> HasNum(t, id, a) && x <= t.attrs[(id, a)].num.value)
              && (forall x :: Bound(n, raw, most, x) ==> HasNum(t, id, a) && t.attrs[(id, a)].num.value <= x)
  {
    var least, most := "attr_" + f.attribute + "_min", "attr_" + f.attribute + "_max";
    forall x
      ensures Bound(n, raw, least, x) <==> ParsedNumber(n, raw, least) == Some(x)
      ensures Bound(n, raw, most, x) <==> ParsedNumber(n, raw, most) == Some(x)
    {
      BoundMeaning(n, raw, least, x);
      BoundMeaning(n, raw, most, x);
    }
    var min, max := ParsedNumber(n, raw, least), ParsedNumber(n, raw, most);
    assert min.Some? ==> Bound(n, raw, least, min.value);
    assert max.Some? ==> Bound(n, raw, most, max.value);
  }

  lemma PriceFieldsMeaning(n: Numbers, f: Filter, raw: Params, t: Tables, id: string)
    requires id in t.cards && f.filterType.RangePriceType?
    ensures LetsThrough(t, id, FilterCondFor(n, f, raw)) <==>
              && (forall x :: Bound(n, raw, "price_min", x) ==> n.toMinor(x) <= t.cards[id].price)
              && (forall x :: Bound(n, raw, "price_max", x) ==> t.cards[id].price <= n.toMinor(x))
  {
    forall x
      ensures Bound(n, raw, "price_min", x) <==> ParsedNumber(n, raw, "price_min") == Some(x)
      ensures Bound(n, raw, "price_max", x) <==> ParsedNumber(n, raw, "price_max") == Some(x)
    {
      BoundMeaning(n, raw, "price_min", x);
      BoundMeaning(n, raw, "price_max", x);
    }
    var min, max := ParsedNumber(n, raw, "price_min"), ParsedNumber(n, raw, "price_max");
    assert min.Some? ==> Bound(n, raw, "price_min", min.value);
    assert max.Some? ==> Bound(n, raw, "price_max", max.value);
  }

  /** The category of a slug and the filters of a category. */
  datatype Taxonomy = Taxonomy(category: string -> Option<string>, filters: string -> seq<Filter>)

  /** The whole listing behind a request, whatever its page; `None` when there is no such category. */
  ghost function ListingOf(engine: TextEngine, c: Catalog, n: Numbers, t: Taxonomy, r: Request, page: UInt32)
    : Option<seq<Ranking.Entry>>
  {
    var category := t.category(r.slug);
    if category.None? then None
    else Some(Listed(engine, c, CategoryQuery(category.value,
                                              BuildFilterConds(n, t.filters(category.value), r.params), page)))
  }

  /** A pagination link leads to the page it names of the very same listing, provided that the bytes of the slug
    * mean themselves in a path. */
  lemma LinkKeepsTheListing(u: Codec, engine: TextEngine, c: Catalog, n: Numbers, t: Taxonomy, slug: string,
                            raw: Params, from: UInt32, to: UInt32)
    requires IsUtf8(u) && PlainSegment(u.encode(slug))
    ensures var next := ReadRequest(u, Href(u, slug, QueryText(u, raw, to)));
            && next.Some? && next.value.slug == slug
            && AskedPage(next.value.params) == Asked(Some(to))
            && ListingOf(engine, c, n, t, next.value, to) == ListingOf(engine, c, n, t, Request(slug, raw), from)
  {
    PathReadsBackExactly(u, slug, QueryText(u, raw, to));
    CleanSlugReadsBack(u, slug, raw, to);
    NextRequestReads(u, raw, to);
    if t.category(slug).Some? {
      var category := t.category(slug).value;
      SameListing(u, engine, c, n, category, t.filters(category), raw, from, to);
    }
  }

  lemma SameListing(u: Codec, engine: TextEngine, c: Catalog, n: Numbers, category: string, filters: seq<Filter>,
                    raw: Params, from: UInt32, to: UInt32)
    requires IsUtf8(u)
    ensures var next := Parse(u, QueryText(u, raw, to));
            Listed(engine, c, CategoryQuery(category, BuildFilterConds(n, filters, next), to))
            == Listed(engine, c, CategoryQuery(category, BuildFilterConds(n, filters, raw), from))
  {
    NextRequestReads(u, raw, to);
    NextValues(raw, Decimal(to));
    SameFilters(n, filters, raw, Parse(u, QueryText(u, raw, to)));
    ListedIgnoresPage(engine, c, category, BuildFilterConds(n, filters, raw), to);
    ListedIgnoresPage(engine, c, category, BuildFilterConds(n, filters, raw), from);
  }
}
