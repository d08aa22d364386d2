/**
  Entity keys in OData URLs: text literals with doubled quotes, GUID literals in canonical form,
  and the key paths built from them.

  Literal forms are those of section 5.1.1.6.1 of OData Version 4.0 Part 2: URL Conventions.
*/
module ODataKeys {
  import opened Options

  // ---------- Text literals ----------

  /** A character inside a literal: a quote is doubled. */
  function Written(c: char): string {
    if c == '\'' then [c, c] else [c]
  }

  function Doubled(s: string): string {
    if s == "" then "" else Written(s[0]) + Doubled(s[1..])
  }

  function QuoteString(value: string): string {
    ['\''] + Doubled(value) + ['\'']
  }

  datatype Scanned = Scanned(value: string, rest: string)

  /** Reads up to the closing quote: the first quote not doubled. */
  function ScanBody(text: string): Option<Scanned> {
    if text == "" then None
    else if text[0] != '\'' then Before(text[0], ScanBody(text[1..]))
    else if |text| > 1 && text[1] == '\'' then Before('\'', ScanBody(text[2..]))
    else Some(Scanned("", text[1..]))
  }

  function Before(c: char, scanned: Option<Scanned>): Option<Scanned> {
    if scanned.Some? then Some(Scanned([c] + scanned.value.value, scanned.value.rest)) else None
  }

  /** How a server reads a text literal off the front of a URL. */
  function ScanLiteral(text: string): Option<Scanned> {
    if text == "" || text[0] != '\'' then None else ScanBody(text[1..])
  }

  predicate StartsWithQuote(s: string) {
    s != "" && s[0] == '\''
  }

  lemma ScanStep(c: char, tail: string)
    ensures ScanBody(Written(c) + tail) == Before(c, ScanBody(tail))
  {
  }

  lemma {:induction false} ScanDoubled(s: string, rest: string)
    ensures var scanned := ScanBody(rest);
            ScanBody(Doubled(s) + rest)
            == if scanned.Some? then Some(Scanned(s + scanned.value.value, scanned.value.rest)) else None
  {
    if s == "" {
      assert Doubled(s) + rest == rest;
      if ScanBody(rest).Some? {
        assert s + ScanBody(rest).value.value == ScanBody(rest).value.value;
      }
    } else {
      ScanDoubled(s[1..], rest);
      var tail := Doubled(s[1..]) + rest;
      ScanStep(s[0], tail);
      assert Doubled(s) + rest == Written(s[0]) + tail;
      if ScanBody(rest).Some? {
        BeforePrefix(s, ScanBody(rest));
      }
    }
  }

  lemma BeforePrefix(s: string, scanned: Option<Scanned>)
    requires s != "" && scanned.Some?
    ensures [s[0]] + (s[1..] + scanned.value.value) == s + scanned.value.value
  {
  }

  lemma Regroup(a: string, b: string, c: string, d: string)
    ensures a + (b + c + d) == (a + b) + c + d
  {
  }

  lemma WrittenFirst(text: string)
    requires ScanBody(text).Some? && (text[0] != '\'' || (|text| > 1 && text[1] == '\''))
    ensures var n := |Written(text[0])|;
            n <= |text| && text == Written(text[0]) + text[n..] && ScanBody(text) == Before(text[0], ScanBody(text[n..]))
  {
  }

  lemma DoubledFirst(c: char, value: string)
    ensures Doubled([c] + value) == Written(c) + Doubled(value)
  {
  }

  lemma {:induction false} ScannedIsDoubled(text: string)
    requires ScanBody(text).Some?
    ensures var Scanned(value, rest) := ScanBody(text).value;
            text == Doubled(value) + ['\''] + rest && !StartsWithQuote(rest)
    decreases |text|
  {
    if text[0] != '\'' || (|text| > 1 && text[1] == '\'') {
      WrittenFirst(text);
      var tail := text[|Written(text[0])|..];
      ScannedIsDoubled(tail);
      var Scanned(value, rest) := ScanBody(tail).value;
      DoubledFirst(text[0], value);
      Regroup(Written(text[0]), Doubled(value), ['\''], rest);
    } else {
      assert text == [] + ['\''] + text[1..];
    }
  }

  /**
    Literals are unambiguous. A scanner takes a value and leaves a rest exactly from the texts
    that are the quoted value followed by that rest, where the rest does not start with a quote.
  */
  lemma ScanExactly(text: string, value: string, rest: string)
    ensures ScanLiteral(text) == Some(Scanned(value, rest))
            <==> text == QuoteString(value) + rest && !StartsWithQuote(rest)
  {
    if ScanLiteral(text) == Some(Scanned(value, rest)) {
      ScannedIsDoubled(text[1..]);
      assert text == ['\''] + text[1..];
      assert text == QuoteString(value) + rest;
    }
    if text == QuoteString(value) + rest && !StartsWithQuote(rest) {
      var after := ['\''] + rest;
      assert after[1..] == rest;
      ScanDoubled(value, after);
      assert text[1..] == Doubled(value) + after;
      assert value + "" == value;
    }
  }

  /** So a quoted value can be read back out of a path whatever follows, short of another quote. */
  lemma ReadBack(before: string, a: string, after: string, b: string, after': string)
    requires !StartsWithQuote(after) && !StartsWithQuote(after')
    requires before + QuoteString(a) + after == before + QuoteString(b) + after'
    ensures a == b && after == after'
  {
    var x, y := QuoteString(a) + after, QuoteString(b) + after';
    assert before + QuoteString(a) + after == before + x;
    assert before + QuoteString(b) + after' == before + y;
    assert x == (before + x)[|before|..] == (before + y)[|before|..] == y;
    ScanExactly(x, a, after);
    ScanExactly(y, b, after');
  }

  // ---------- GUID literals ----------

  function DigitValue(c: char): int {
    if '0' <= c <= '9' then c as int - '0' as int
    else if 'a' <= c <= 'f' then c as int - 'a' as int + 10
    else if 'A' <= c <= 'F' then c as int - 'A' as int + 10
    else -1
  }

  predicate AllHex(s: string) {
    forall i :: 0 <= i < |s| ==> DigitValue(s[i]) >= 0
  }

  function Value(s: string): nat
    requires AllHex(s)
  {
    if s == "" then 0 else 16 * Value(s[..|s| - 1]) + DigitValue(s[|s| - 1])
  }

  function Pow16(k: nat): nat {
    if k == 0 then 1 else 16 * Pow16(k - 1)
  }

  function LowerDigit(d: nat): (c: char)
    requires d < 16
    ensures DigitValue(c) == d
    ensures '0' <= c <= '9' || 'a' <= c <= 'f'
  {
    if d < 10 then '0' + d as char else 'a' + (d - 10) as char
  }

  /** The k lowest hexadecimal digits of n, in lower case. */
  function Digits(n: nat, k: nat): (s: string)
    ensures |s| == k && AllHex(s)
    ensures forall i :: 0 <= i < k ==> '0' <= s[i] <= '9' || 'a' <= s[i] <= 'f'
  {
    if k == 0 then "" else Digits(n / 16, k - 1) + [LowerDigit(n % 16)]
  }

  lemma {:induction false} DigitsValue(n: nat, k: nat)
    requires n < Pow16(k)
    ensures Value(Digits(n, k)) == n
  {
    if k > 0 {
      DigitsValue(n / 16, k - 1);
      assert Digits(n, k)[..k - 1] == Digits(n / 16, k - 1);
    }
  }

  /** Text with every occurrence of a word taken out, left to right. */
  function Without(s: string, word: string): string
    requires word != ""
    decreases |s|
  {
    if s == "" then ""
    else if word <= s then Without(s[|word|..], word)
    else [s[0]] + Without(s[1..], word)
  }

  function WithoutHyphens(s: string): string {
    if s == "" then "" else if s[0] == '-' then WithoutHyphens(s[1..]) else [s[0]] + WithoutHyphens(s[1..])
  }

  predicate Brace(c: char) {
    c == '{' || c == '}'
  }

  function StripBraces(s: string): string {
    if s != "" && Brace(s[0]) then StripBraces(s[1..])
    else if s != "" && Brace(s[|s| - 1]) then StripBraces(s[..|s| - 1])
    else s
  }

  function Grouped(h: string): string
    requires |h| == 32
  {
    h[..8] + "-" + h[8..12] + "-" + h[12..16] + "-" + h[16..20] + "-" + h[20..]
  }

  function Cleaned(value: string): string {
    WithoutHyphens(StripBraces(Without(Without(value, "urn:"), "uuid:")))
  }

  /** How numbers in base 16 are read; all that is used of it is that plain digits have their usual value. */
  type HexReader = string -> Option<nat>

  ghost predicate ReadsDigits(read: HexReader) {
    forall s :: |s| == 32 && AllHex(s) ==> read(s) == Some(Value(s))
  }

  /** The canonical literal, or a refusal. */
  function QuoteGuid(read: HexReader, value: string): Option<string> {
    var hex := Cleaned(value);
    if |hex| != 32 || read(hex).None? || read(hex).value >= Pow16(32) then None
    else Some(Grouped(Digits(read(hex).value, 32)))
  }

  /** A word with a letter that the text has not is nowhere in it. */
  lemma {:induction false} WithoutAbsent(s: string, word: string, j: nat)
    requires j < |word| && word[j] !in s
    ensures Without(s, word) == s
    decreases |s|
  {
    if s != "" {
      assert j < |s| ==> s[j] in s;
      WithoutAbsent(s[1..], word, j);
    }
  }

  lemma {:induction false} NoHyphensConcat(a: string, b: string)
    ensures WithoutHyphens(a + b) == WithoutHyphens(a) + WithoutHyphens(b)
  {
    if a == "" {
      assert a + b == b;
    } else {
      NoHyphensConcat(a[1..], b);
      assert (a + b)[0] == a[0] && (a + b)[1..] == a[1..] + b;
      assert [a[0]] + (WithoutHyphens(a[1..]) + WithoutHyphens(b)) == [a[0]] + WithoutHyphens(a[1..]) + WithoutHyphens(b);
    }
  }

  lemma {:induction false} NoHyphensIn(s: string)
    requires '-' !in s
    ensures WithoutHyphens(s) == s
  {
    if s != "" {
      NoHyphensIn(s[1..]);
    }
  }

  lemma OneGroup(a: string, rest: string)
    requires '-' !in a
    ensures WithoutHyphens(a + "-" + rest) == a + WithoutHyphens(rest)
  {
    NoHyphensConcat(a + "-", rest);
    NoHyphensConcat(a, "-");
    NoHyphensIn(a);
    assert WithoutHyphens("-") == "";
  }

  /** Taking the hyphens out of a grouped text gives the digits back. */
  lemma Ungroup(h: string)
    requires |h| == 32 && '-' !in h
    ensures WithoutHyphens(Grouped(h)) == h
  {
    var a, b, c, d, e := h[..8], h[8..12], h[12..16], h[16..20], h[20..];
    var last := d + "-" + e;
    var middle := c + "-" + last;
    var most := b + "-" + middle;
    OneGroup(a, most);
    OneGroup(b, middle);
    OneGroup(c, last);
    OneGroup(d, e);
    NoHyphensIn(e);
    assert Grouped(h) == a + "-" + most;
    assert h == a + (b + (c + (d + e)));
  }

  lemma GroupedShape(h: string)
    requires |h| == 32
    ensures |Grouped(h)| == 36
    ensures forall c :: c in Grouped(h) ==> c == '-' || c in h
    ensures Grouped(h)[0] == h[0] && Grouped(h)[35] == h[31]
  {
  }

  lemma HexCharacters(h: string)
    requires AllHex(h)
    ensures 'u' !in h && 'r' !in h && '-' !in h && (h != "" ==> !Brace(h[0]) && !Brace(h[|h| - 1]))
  {
  }

  /** Digits, bare or grouped, are cleaned to themselves. */
  lemma CleanedDigits(h: string)
    requires |h| == 32 && AllHex(h)
    ensures Cleaned(h) == h && Cleaned(Grouped(h)) == h
  {
    HexCharacters(h);
    GroupedShape(h);
    WithoutAbsent(h, "urn:", 0);
    WithoutAbsent(h, "uuid:", 0);
    NoHyphensIn(h);
    var g := Grouped(h);
    assert 'u' !in g;
    WithoutAbsent(g, "urn:", 0);
    WithoutAbsent(g, "uuid:", 0);
    Ungroup(h);
  }

  /** A literal is 36 characters of lower-case digits and hyphens, so nothing in it can end the key. */
  lemma GuidShape(read: HexReader, value: string)
    requires QuoteGuid(read, value).Some?
    ensures var g := QuoteGuid(read, value).value;
            |g| == 36 && forall c :: c in g ==> c == '-' || '0' <= c <= '9' || 'a' <= c <= 'f'
  {
  }

  /** The hyphens set off 8, 4, 4, 4 and 12 digits, and the digits are those of the number that was read. */
  lemma GuidDenotes(read: HexReader, value: string)
    requires QuoteGuid(read, value).Some?
    ensures var g := QuoteGuid(read, value).value;
            var h := g[..8] + g[9..13] + g[14..18] + g[19..23] + g[24..];
            && |g| == 36 && g[8] == g[13] == g[18] == g[23] == '-'
            && |h| == 32 && AllHex(h) && read(Cleaned(value)) == Some(Value(h))
  {
    var h := Digits(read(Cleaned(value)).value, 32);
    DigitsValue(read(Cleaned(value)).value, 32);
    GroupsBack(h);
  }

  lemma GroupsBack(h: string)
    requires |h| == 32
    ensures var g := Grouped(h);
            && |g| == 36 && g[8] == g[13] == g[18] == g[23] == '-'
            && g[..8] + g[9..13] + g[14..18] + g[19..23] + g[24..] == h
  {
    var g := Grouped(h);
    assert g[..8] == h[..8] && g[9..13] == h[8..12] && g[14..18] == h[12..16] && g[19..23] == h[16..20] && g[24..] == h[20..];
  }

  /** The canonical form is a fixed point. */
  lemma CanonicalFixedPoint(read: HexReader, value: string)
    requires ReadsDigits(read) && QuoteGuid(read, value).Some?
    ensures QuoteGuid(read, QuoteGuid(read, value).value) == QuoteGuid(read, value)
  {
    var n := read(Cleaned(value)).value;
    var h := Digits(n, 32);
    CleanedDigits(h);
    DigitsValue(n, 32);
  }

  /** Two values have one literal exactly if they stand for one number. */
  lemma SameLiteralExactly(read: HexReader, a: string, b: string)
    requires QuoteGuid(read, a).Some? && QuoteGuid(read, b).Some?
    ensures QuoteGuid(read, a) == QuoteGuid(read, b) <==> read(Cleaned(a)) == read(Cleaned(b))
  {
    var m, n := read(Cleaned(a)).value, read(Cleaned(b)).value;
    DigitsValue(m, 32);
    DigitsValue(n, 32);
    HexCharacters(Digits(m, 32));
    HexCharacters(Digits(n, 32));
    Ungroup(Digits(m, 32));
    Ungroup(Digits(n, 32));
  }

  lemma {:induction false} ValueBelow(s: string)
    requires AllHex(s)
    ensures Value(s) < Pow16(|s|)
  {
    if s != "" {
      ValueBelow(s[..|s| - 1]);
    }
  }

  lemma UrnPrefix(h: string)
    requires |h| == 32 && AllHex(h)
    ensures Cleaned("urn:uuid:" + h) == h
  {
    HexCharacters(h);
    var text, uuid := "urn:uuid:" + h, "uuid:" + h;
    assert "urn:" <= text && text[4..] == uuid;
    assert 'r' !in uuid;
    WithoutAbsent(uuid, "urn:", 1);
    assert "uuid:" <= uuid && uuid[5..] == h;
    WithoutAbsent(h, "uuid:", 0);
    NoHyphensIn(h);
  }

  lemma BracesOff(s: string)
    requires s != "" && !Brace(s[0]) && !Brace(s[|s| - 1])
    ensures StripBraces("{" + s + "}") == s
  {
    var closed := s + "}";
    var braced := "{" + s + "}";
    assert StripBraces(s) == s;
    assert closed[0] == s[0] && closed[|s|] == '}' && closed[..|s|] == s;
    assert StripBraces(closed) == StripBraces(s);
    assert braced[0] == '{' && braced[1..] == closed;
  }

  lemma CleanedBraced(h: string)
    requires |h| == 32 && AllHex(h)
    ensures Cleaned("{" + h + "}") == h
  {
    HexCharacters(h);
    var braced := "{" + h + "}";
    assert 'u' !in braced;
    WithoutAbsent(braced, "urn:", 0);
    WithoutAbsent(braced, "uuid:", 0);
    BracesOff(h);
    NoHyphensIn(h);
  }

  lemma LiteralOf(read: HexReader, h: string, value: string)
    requires ReadsDigits(read) && |h| == 32 && AllHex(h) && Cleaned(value) == h
    ensures QuoteGuid(read, value) == Some(Grouped(Digits(Value(h), 32)))
  {
    ValueBelow(h);
  }

  /** A hexadecimal digit stands for its place among the sixteen, in either case of letters. */
  lemma DigitTold(c: char, d: nat)
    requires d < 16
    ensures DigitValue(c) == d <==> c == "0123456789abcdef"[d] || c == "0123456789ABCDEF"[d]
  {
  }

  /** Both characters are the d-th of the sixteen digits, each in either case. */
  ghost predicate BothDigit(a: char, b: char, d: nat) {
    && d < 16 && (a == "0123456789abcdef"[d] || a == "0123456789ABCDEF"[d])
    && (b == "0123456789abcdef"[d] || b == "0123456789ABCDEF"[d])
  }

  ghost predicate SameDigit(a: char, b: char) {
    exists d: nat :: BothDigit(a, b, d)
  }

  ghost predicate SameDigits(a: string, b: string) {
    |a| == |b| && forall i :: 0 <= i < |a| ==> SameDigit(a[i], b[i])
  }

  lemma SameDigitValue(a: char, b: char)
    requires SameDigit(a, b)
    ensures DigitValue(a) == DigitValue(b) >= 0
  {
    var d: nat :| BothDigit(a, b, d);
    DigitTold(a, d);
    DigitTold(b, d);
  }

  lemma {:induction false} SameDigitsSameValue(a: string, b: string)
    requires SameDigits(a, b)
    ensures AllHex(a) && AllHex(b) && Value(a) == Value(b)
  {
    forall i | 0 <= i < |a|
      ensures DigitValue(a[i]) == DigitValue(b[i]) >= 0
    {
      SameDigitValue(a[i], b[i]);
    }
    if a != "" {
      SameDigitsSameValue(a[..|a| - 1], b[..|b| - 1]);
    }
  }

  /** So the case of a GUID's letters never shows in its literal. */
  lemma CaseNeverShows(read: HexReader, a: string, b: string)
    requires ReadsDigits(read) && |a| == 32 && SameDigits(a, b)
    ensures QuoteGuid(read, a).Some? && QuoteGuid(read, a) == QuoteGuid(read, b)
  {
    SameDigitsSameValue(a, b);
    SpellingsAgree(read, a);
    SpellingsAgree(read, b);
  }

  /** All the usual spellings of a GUID, in either case of letters, give the one literal. */
  lemma SpellingsAgree(read: HexReader, h: string)
    requires ReadsDigits(read) && |h| == 32 && AllHex(h)
    ensures QuoteGuid(read, h) == QuoteGuid(read, Grouped(h)) == QuoteGuid(read, "urn:uuid:" + h)
            == QuoteGuid(read, "{" + h + "}") == Some(Grouped(Digits(Value(h), 32)))
  {
    CleanedDigits(h);
    UrnPrefix(h);
    CleanedBraced(h);
    LiteralOf(read, h, h);
    LiteralOf(read, h, Grouped(h));
    LiteralOf(read, h, "urn:uuid:" + h);
    LiteralOf(read, h, "{" + h + "}");
  }

  // ---------- Key paths ----------

  const DOCUMENT_TYPE := "DocumentType(DocumentTypeID="
  const BO_NODE_TYPE := "BusinessObjectNodeType(" + "BusinessObjectNodeTypeUniqueID="
  const JOB_STATUS := "JobStatus(JobID="
  const RELATION := "DocumentRelation(DocumentRelationID="
  const ALLOWED_DOMAIN := "AllowedDomain(AllowedDomainID="
  const TYPE_MAP := "DocumentTypeBusinessObject" + "TypeMap(DocumentTypeBOTypeMapID="
  const DOWNLOAD := "/DownloadDocument(DocContentVersionID="

  function DocumentTypePath(id: string): string {
    DOCUMENT_TYPE + QuoteString(id) + ")"
  }

  function NodeTypePath(id: string): string {
    BO_NODE_TYPE + QuoteString(id) + ")"
  }

  function JobStatusPath(id: string): string {
    JOB_STATUS + QuoteString(id) + ")"
  }

  function ActiveText(active: bool): string {
    if active then ",IsActiveEntity=true)" else ",IsActiveEntity=false)"
  }

  function RelationPath(read: HexReader, id: string, active: bool): Option<string> {
    var guid := QuoteGuid(read, id);
    if guid.None? then None else Some(RELATION + guid.value + ActiveText(active))
  }

  function GuidPath(read: HexReader, prefix: string, id: string): Option<string> {
    var guid := QuoteGuid(read, id);
    if guid.None? then None else Some(prefix + guid.value + ")")
  }

  function AllowedDomainPath(read: HexReader, id: string): Option<string> {
    GuidPath(read, ALLOWED_DOMAIN, id)
  }

  function TypeMapPath(read: HexReader, id: string): Option<string> {
    GuidPath(read, TYPE_MAP, id)
  }

  function DownloadPath(read: HexReader, id: string, active: bool, version: string): Option<string> {
    var relation := RelationPath(read, id, active);
    if relation.None? then None else Some(relation.value + DownloadSegment(version))
  }

  function DownloadSegment(version: string): string {
    DOWNLOAD + QuoteString(version) + ")"
  }

  /** Different text keys have different paths. */
  lemma TextPathsInjective(prefix: string, a: string, b: string)
    requires prefix + QuoteString(a) + ")" == prefix + QuoteString(b) + ")"
    ensures a == b
  {
    ReadBack(prefix, a, ")", b, ")");
  }

  lemma SplitAt(x: string, y: string, x': string, y': string)
    requires |x| == |x'| && x + y == x' + y'
    ensures x == x' && y == y'
  {
    assert x == (x + y)[..|x|] == (x' + y')[..|x|] == x';
    assert y == (x + y)[|x|..] == (x' + y')[|x|..] == y';
  }

  /** GUID key paths coincide exactly for spellings of one GUID, and are refused exactly where the literal is. */
  lemma GuidPathsExactly(read: HexReader, id: string, id': string)
    ensures AllowedDomainPath(read, id) == AllowedDomainPath(read, id') <==> QuoteGuid(read, id) == QuoteGuid(read, id')
    ensures TypeMapPath(read, id) == TypeMapPath(read, id') <==> QuoteGuid(read, id) == QuoteGuid(read, id')
  {
    SameGuidPath(read, ALLOWED_DOMAIN, id, id');
    SameGuidPath(read, TYPE_MAP, id, id');
  }

  lemma SameGuidPath(read: HexReader, prefix: string, id: string, id': string)
    ensures GuidPath(read, prefix, id) == GuidPath(read, prefix, id') <==> QuoteGuid(read, id) == QuoteGuid(read, id')
  {
    if QuoteGuid(read, id).Some? && QuoteGuid(read, id').Some? {
      var g, g' := QuoteGuid(read, id).value, QuoteGuid(read, id').value;
      GuidShape(read, id);
      GuidShape(read, id');
      if GuidPath(read, prefix, id) == GuidPath(read, prefix, id') {
        SplitAt(prefix + g, ")", prefix + g', ")");
        SplitAt(prefix, g, prefix, g');
      }
    }
  }

  lemma ActiveDiffers(active: bool, tail: string, active': bool, tail': string)
    requires ActiveText(active) + tail == ActiveText(active') + tail'
    ensures active == active' && tail == tail'
  {
    var x, x' := ActiveText(active) + tail, ActiveText(active') + tail';
    assert ActiveText(active)[16] == x[16] == x'[16] == ActiveText(active')[16];
    assert ActiveText(true)[16] == 't' && ActiveText(false)[16] == 'f';
    SplitAt(ActiveText(active), tail, ActiveText(active'), tail');
  }

  lemma RelationPrefix(
    prefix: string, g: string, active: bool, tail: string, g': string, active': bool, tail': string)
    requires |g| == |g'|
    requires prefix + g + ActiveText(active) + tail == prefix + g' + ActiveText(active') + tail'
    ensures g == g' && active == active' && tail == tail'
  {
    var t, t' := ActiveText(active), ActiveText(active');
    assert prefix + g + t + tail == (prefix + g) + (t + tail);
    assert prefix + g' + t' + tail' == (prefix + g') + (t' + tail');
    SplitAt(prefix + g, t + tail, prefix + g', t' + tail');
    SplitAt(prefix, g, prefix, g');
    ActiveDiffers(active, tail, active', tail');
  }

  lemma SameDownload(
    prefix: string, g: string, active: bool, version: string, g': string, active': bool, version': string)
    requires |g| == |g'|
    requires prefix + g + ActiveText(active) + DownloadSegment(version)
             == prefix + g' + ActiveText(active') + DownloadSegment(version')
    ensures g == g' && active == active' && version == version'
  {
    RelationPrefix(prefix, g, active, DownloadSegment(version), g', active', DownloadSegment(version'));
    TextPathsInjective(DOWNLOAD, version, version');
  }

  lemma SameRelation(prefix: string, g: string, active: bool, g': string, active': bool)
    requires |g| == |g'| && prefix + g + ActiveText(active) == prefix + g' + ActiveText(active')
    ensures g == g' && active == active'
  {
    var r, r' := prefix + g + ActiveText(active), prefix + g' + ActiveText(active');
    assert r + "" == r && r' + "" == r';
    RelationPrefix(prefix, g, active, "", g', active', "");
  }

  /** A download path determines the document, up to the spelling of its GUID, and the version. */
  lemma DownloadPathsExactly(
    read: HexReader, id: string, active: bool, version: string, id': string, active': bool, version': string)
    requires QuoteGuid(read, id).Some? && QuoteGuid(read, id').Some?
    ensures RelationPath(read, id, active) == RelationPath(read, id', active')
            <==> QuoteGuid(read, id) == QuoteGuid(read, id') && active == active'
    ensures DownloadPath(read, id, active, version) == DownloadPath(read, id', active', version')
            <==> QuoteGuid(read, id) == QuoteGuid(read, id') && active == active' && version == version'
  {
    var g, g' := QuoteGuid(read, id).value, QuoteGuid(read, id').value;
    GuidShape(read, id);
    GuidShape(read, id');
    if RelationPath(read, id, active) == RelationPath(read, id', active') {
      SameRelation(RELATION, g, active, g', active');
    }
    if DownloadPath(read, id, active, version) == DownloadPath(read, id', active', version') {
      SameDownload(RELATION, g, active, version, g', active', version');
    }
  }

  // ---------- One path, one entity ----------

  /** A key of each of the six entity sets. */
  datatype Key =
    | DocumentType(id: string)
    | NodeType(id: string)
    | JobStatus(id: string)
    | Relation(id: string, active: bool)
    | AllowedDomain(id: string)
    | TypeMap(id: string)

  function PathOf(read: HexReader, key: Key): Option<string> {
    match key
    case DocumentType(id) => Some(DocumentTypePath(id))
    case NodeType(id) => Some(NodeTypePath(id))
    case JobStatus(id) => Some(JobStatusPath(id))
    case Relation(id, active) => RelationPath(read, id, active)
    case AllowedDomain(id) => AllowedDomainPath(read, id)
    case TypeMap(id) => TypeMapPath(read, id)
  }

  /** The same entity set and, within it, the same key: a text as it is, a GUID up to its spelling. */
  ghost predicate SameEntity(read: HexReader, a: Key, b: Key) {
    match (a, b)
    case (DocumentType(x), DocumentType(y)) => x == y
    case (NodeType(x), NodeType(y)) => x == y
    case (JobStatus(x), JobStatus(y)) => x == y
    case (Relation(x, p), Relation(y, q)) => QuoteGuid(read, x) == QuoteGuid(read, y) && p == q
    case (AllowedDomain(x), AllowedDomain(y)) => QuoteGuid(read, x) == QuoteGuid(read, y)
    case (TypeMap(x), TypeMap(y)) => QuoteGuid(read, x) == QuoteGuid(read, y)
    case _ => false
  }

  /** Which entity set a path starts with shows in its 1st, 9th and 13th characters. */
  function Mark(path: string): (char, char, char)
    requires |path| > 12
  {
    (path[0], path[8], path[12])
  }

  function MarkOf(key: Key): (char, char, char) {
    match key
    case DocumentType(_) => ('D', 'T', '(')
    case NodeType(_) => ('B', 'O', 'c')
    case JobStatus(_) => ('J', 's', 'b')
    case Relation(_, _) => ('D', 'R', 't')
    case AllowedDomain(_) => ('A', 'o', 'n')
    case TypeMap(_) => ('D', 'T', 'B')
  }

  lemma PrefixMarks()
    ensures |DOCUMENT_TYPE| > 12 && Mark(DOCUMENT_TYPE) == ('D', 'T', '(')
    ensures |BO_NODE_TYPE| > 12 && Mark(BO_NODE_TYPE) == ('B', 'O', 'c')
    ensures |JOB_STATUS| > 12 && Mark(JOB_STATUS) == ('J', 's', 'b')
  {
  }

  lemma GuidPrefixMarks()
    ensures |RELATION| > 12 && Mark(RELATION) == ('D', 'R', 't')
    ensures |ALLOWED_DOMAIN| > 12 && Mark(ALLOWED_DOMAIN) == ('A', 'o', 'n')
    ensures |TYPE_MAP| > 12 && Mark(TYPE_MAP) == ('D', 'T', 'B')
  {
  }

  lemma PathMark(read: HexReader, key: Key)
    requires PathOf(read, key).Some?
    ensures |PathOf(read, key).value| > 12 && Mark(PathOf(read, key).value) == MarkOf(key)
  {
    match key
    case DocumentType(id) => PrefixMarks(); TextMark(DOCUMENT_TYPE, id);
    case NodeType(id) => PrefixMarks(); TextMark(BO_NODE_TYPE, id);
    case JobStatus(id) => PrefixMarks(); TextMark(JOB_STATUS, id);
    case Relation(id, active) => GuidPrefixMarks(); GuidMark(RELATION, QuoteGuid(read, id).value, ActiveText(active));
    case AllowedDomain(id) => GuidPrefixMarks(); GuidMark(ALLOWED_DOMAIN, QuoteGuid(read, id).value, ")");
    case TypeMap(id) => GuidPrefixMarks(); GuidMark(TYPE_MAP, QuoteGuid(read, id).value, ")");
  }

  lemma TextMark(prefix: string, id: string)
    requires |prefix| > 12
    ensures |prefix + QuoteString(id) + ")"| > 12 && Mark(prefix + QuoteString(id) + ")") == Mark(prefix)
  {
  }

  lemma GuidMark(prefix: string, g: string, tail: string)
    requires |prefix| > 12
    ensures |prefix + g + tail| > 12 && Mark(prefix + g + tail) == Mark(prefix)
  {
  }

  /** A path names one entity: two keys have one path exactly if they are keys of the same entity. */
  lemma PathsExactly(read: HexReader, a: Key, b: Key)
    requires PathOf(read, a).Some? && PathOf(read, b).Some?
    ensures PathOf(read, a) == PathOf(read, b) <==> SameEntity(read, a, b)
  {
    PathMark(read, a);
    PathMark(read, b);
    if MarkOf(a) == MarkOf(b) {
      match a
      case DocumentType(x) => TextPathExactly(DOCUMENT_TYPE, x, b.id);
      case NodeType(x) => TextPathExactly(BO_NODE_TYPE, x, b.id);
      case JobStatus(x) => TextPathExactly(JOB_STATUS, x, b.id);
      case Relation(x, active) => DownloadPathsExactly(read, x, active, "", b.id, b.active, "");
      case AllowedDomain(x) => GuidPathsExactly(read, x, b.id);
      case TypeMap(x) => GuidPathsExactly(read, x, b.id);
    }
  }

  lemma TextPathExactly(prefix: string, x: string, y: string)
    ensures prefix + QuoteString(x) + ")" == prefix + QuoteString(y) + ")" <==> x == y
  {
    if prefix + QuoteString(x) + ")" == prefix + QuoteString(y) + ")" {
      TextPathsInjective(prefix, x, y);
    }
  }

  // ---------- Read back by a server ----------

  /** The path names this entity set and key property, and a text literal of this value. */
  ghost predicate ReadsText(path: string, prefix: string, id: string) {
    prefix <= path && ScanLiteral(path[|prefix|..]) == Some(Scanned(id, ")"))
  }

  /** The same with a literal of 36 characters, and what closes the key predicate. */
  ghost predicate ReadsGuid(path: string, prefix: string, id: string, tail: string) {
    |id| == 36 && path == prefix + id + tail
  }

  /** What a server makes of a path: the entity sets and key properties of the service, spelled out. */
  ghost predicate Reads(path: string, key: Key) {
    match key
    case DocumentType(id) => ReadsText(path, "DocumentType(DocumentTypeID=", id)
    case NodeType(id) => ReadsText(path, "BusinessObjectNodeType(" + "BusinessObjectNodeTypeUniqueID=", id)
    case JobStatus(id) => ReadsText(path, "JobStatus(JobID=", id)
    case Relation(id, active) =>
      ReadsGuid(path, "DocumentRelation(DocumentRelationID=", id, if active then ",IsActiveEntity=true)" else ",IsActiveEntity=false)")
    case AllowedDomain(id) => ReadsGuid(path, "AllowedDomain(AllowedDomainID=", id, ")")
    case TypeMap(id) => ReadsGuid(path, "DocumentTypeBusinessObject" + "TypeMap(DocumentTypeBOTypeMapID=", id, ")")
  }

  /** A key with its GUID in the one spelling it is sent in. */
  function Canonical(read: HexReader, key: Key): Key {
    if TextKey(key) || QuoteGuid(read, key.id).None? then key else key.(id := QuoteGuid(read, key.id).value)
  }

  lemma ReadMark(path: string, key: Key)
    requires Reads(path, key)
    ensures |path| > 12 && Mark(path) == MarkOf(key)
  {
    PrefixMarks();
    GuidPrefixMarks();
    if TextKey(key) {
      assert path == PrefixOf(key) + path[|PrefixOf(key)|..];
      PrefixMark(PrefixOf(key), path[|PrefixOf(key)|..]);
    }
  }

  lemma ReadTextExactly(prefix: string, x: string, y: string)
    ensures ReadsText(prefix + QuoteString(x) + ")", prefix, y) <==> x == y
  {
    var path, text := prefix + QuoteString(x) + ")", QuoteString(x) + ")";
    assert path == prefix + text && path[|prefix|..] == text;
    ScanExactly(text, y, ")");
    if text == QuoteString(y) + ")" {
      assert prefix + QuoteString(y) + ")" == prefix + text;
      TextPathsInjective(prefix, x, y);
    }
  }

  lemma ReadGuidExactly(prefix: string, g: string, x: string, tail: string)
    requires |g| == 36
    ensures ReadsGuid(prefix + g + tail, prefix, x, tail) <==> x == g
  {
    if ReadsGuid(prefix + g + tail, prefix, x, tail) {
      SplitAt(prefix + g, tail, prefix + x, tail);
      SplitAt(prefix, g, prefix, x);
    }
  }

  lemma ReadRelationExactly(g: string, active: bool, x: string, active': bool)
    requires |g| == 36
    ensures Reads(RELATION + g + ActiveText(active), Relation(x, active')) <==> x == g && active == active'
  {
    if Reads(RELATION + g + ActiveText(active), Relation(x, active')) {
      SameRelation(RELATION, g, active, x, active');
    }
  }

  lemma ReadsTextKey(read: HexReader, a: Key, b: Key)
    requires TextKey(a) && MarkOf(a) == MarkOf(b)
    ensures Reads(PathOf(read, a).value, b) <==> b == a
  {
    match a
    case DocumentType(x) => ReadTextExactly(DOCUMENT_TYPE, x, b.id);
    case NodeType(x) => ReadTextExactly(BO_NODE_TYPE, x, b.id);
    case JobStatus(x) => ReadTextExactly(JOB_STATUS, x, b.id);
  }

  lemma ReadsGuidKey(read: HexReader, a: Key, b: Key)
    requires !TextKey(a) && PathOf(read, a).Some? && MarkOf(a) == MarkOf(b)
    ensures Reads(PathOf(read, a).value, b) <==> b == Canonical(read, a)
  {
    GuidShape(read, a.id);
    match a
    case Relation(x, active) => ReadRelationExactly(QuoteGuid(read, x).value, active, b.id, b.active);
    case AllowedDomain(x) => ReadGuidExactly(ALLOWED_DOMAIN, QuoteGuid(read, x).value, b.id, ")");
    case TypeMap(x) => ReadGuidExactly(TYPE_MAP, QuoteGuid(read, x).value, b.id, ")");
  }

  lemma ReadsNoOther(read: HexReader, a: Key, b: Key)
    requires PathOf(read, a).Some? && MarkOf(a) != MarkOf(b)
    ensures !Reads(PathOf(read, a).value, b) && b != Canonical(read, a)
  {
    PathMark(read, a);
    if Reads(PathOf(read, a).value, b) {
      ReadMark(PathOf(read, a).value, b);
      assert false;
    }
  }

  /** The server reads from a path the entity it was built for and no other: sets, key properties, values and the draft flag. */
  lemma ReadsExactly(read: HexReader, a: Key, b: Key)
    requires PathOf(read, a).Some?
    ensures Reads(PathOf(read, a).value, b) <==> b == Canonical(read, a)
  {
    if MarkOf(a) != MarkOf(b) {
      ReadsNoOther(read, a, b);
    } else if TextKey(a) {
      ReadsTextKey(read, a, b);
    } else {
      ReadsGuidKey(read, a, b);
    }
  }

  /** A download path goes on from its relation's with the action and the version. */
  lemma DownloadReads(read: HexReader, id: string, active: bool, version: string)
    ensures DownloadPath(read, id, active, version).Some? <==> RelationPath(read, id, active).Some?
    ensures DownloadPath(read, id, active, version).Some? ==>
              var path, relation := DownloadPath(read, id, active, version).value, RelationPath(read, id, active).value;
              relation <= path && ReadsText(path[|relation|..], "/DownloadDocument(DocContentVersionID=", version)
  {
    if RelationPath(read, id, active).Some? {
      var path, relation := DownloadPath(read, id, active, version).value, RelationPath(read, id, active).value;
      assert path[|relation|..] == DownloadSegment(version);
      ReadTextExactly(DOWNLOAD, version, version);
    }
  }

  // ---------- What the request carries ----------

  /** The place of the first `c`, or the length. */
  function At(s: string, c: char): (i: nat)
    ensures i <= |s| && (i < |s| ==> s[i] == c)
    ensures forall j :: 0 <= j < i ==> s[j] != c
  {
    if s == "" || s[0] == c then 0 else 1 + At(s[1..], c)
  }

  /** The client sends paths as they are, and a fragment is not part of a request: the target ends before the first '#'. */
  function Target(path: string): string {
    path[..At(path, '#')]
  }

  /** The path within a target ends before the first '?'. */
  function PathWithin(target: string): string {
    target[..At(target, '?')]
  }

  lemma AtExtends(s: string, t: string, c: char)
    ensures At(s, c) < |s| ==> At(s + t, c) == At(s, c)
    ensures At(s, c) == |s| ==> At(s + t, c) == |s| + At(t, c)
  {
    var u := s + t;
    assert forall j :: 0 <= j < |s| ==> u[j] == s[j];
    assert forall j :: 0 <= j < |t| ==> u[|s| + j] == t[j];
  }

  lemma AtAbsent(s: string, c: char)
    ensures At(s, c) == |s| <==> c !in s
  {
  }

  /** A target stops in the first part of a text that has a '#'. */
  lemma TargetFront(s: string, t: string)
    ensures Target(s + t) == if '#' in s then Target(s) else s + Target(t)
  {
    AtAbsent(s, '#');
    AtExtends(s, t, '#');
    if '#' !in s {
      assert (s + t)[..|s| + At(t, '#')] == s + t[..At(t, '#')];
    }
  }

  /** What is left of a text key in the target: the text up to a '#', and whether there is one. */
  datatype Shown = Shown(text: string, cut: bool)

  function ShownOf(id: string): Shown {
    Shown(Target(id), '#' in id)
  }

  /** And of its literal. */
  function Wire(id: string): string {
    if '#' in id then ['\''] + Doubled(Target(id)) else QuoteString(id) + ")"
  }

  lemma {:induction false} DoubledCut(id: string)
    ensures Target(Doubled(id)) == Doubled(Target(id)) && ('#' in Doubled(id) <==> '#' in id)
  {
    if id != "" {
      var c, rest := id[0], id[1..];
      DoubledCut(rest);
      assert id == [c] + rest;
      TargetFront([c], rest);
      TargetFront(Written(c), Doubled(rest));
      if c != '#' {
        DoubledFirst(c, Target(rest));
      }
    }
  }

  lemma TargetOfLiteral(id: string)
    ensures Target(QuoteString(id) + ")") == Wire(id)
  {
    var quote, tail := ['\''], ['\'', ')'];
    assert QuoteString(id) + ")" == quote + (Doubled(id) + tail);
    TargetFront(quote, Doubled(id) + tail);
    TargetFront(Doubled(id), tail);
    DoubledCut(id);
    AtAbsent(tail, '#');
  }

  lemma TargetOfText(prefix: string, id: string)
    requires '#' !in prefix
    ensures Target(prefix + QuoteString(id) + ")") == prefix + Wire(id)
  {
    assert prefix + QuoteString(id) + ")" == prefix + (QuoteString(id) + ")");
    TargetFront(prefix, QuoteString(id) + ")");
    TargetOfLiteral(id);
  }

  lemma CutIsNotWhole(x: string, b: string)
    ensures ['\''] + Doubled(x) != QuoteString(b) + ")"
  {
    ScanExactly(QuoteString(b) + ")", b, ")");
    ScanDoubled(x, "");
    assert Doubled(x) + "" == Doubled(x);
    assert (['\''] + Doubled(x))[1..] == Doubled(x);
    assert ScanLiteral(['\''] + Doubled(x)).None?;
  }

  lemma SameDoubled(x: string, y: string)
    requires Doubled(x) == Doubled(y)
    ensures x == y
  {
    ReadBack("", x, "", y, "");
  }

  /** Two literals are alike in the target exactly if their keys are, as far as they are shown. */
  lemma WireExactly(a: string, b: string)
    ensures Wire(a) == Wire(b) <==> ShownOf(a) == ShownOf(b)
  {
    AtAbsent(a, '#');
    AtAbsent(b, '#');
    assert ('#' !in a ==> Target(a) == a) && ('#' !in b ==> Target(b) == b);
    if Wire(a) == Wire(b) {
      if '#' in a && '#' in b {
        assert Wire(a)[1..] == Doubled(Target(a)) && Wire(b)[1..] == Doubled(Target(b));
        SameDoubled(Target(a), Target(b));
      } else if '#' in a {
        CutIsNotWhole(Target(a), b);
      } else if '#' in b {
        CutIsNotWhole(Target(b), a);
      } else {
        SameQuoted(a, b);
      }
    }
  }

  lemma SameQuoted(a: string, b: string)
    requires QuoteString(a) + ")" == QuoteString(b) + ")"
    ensures a == b
  {
    assert "" + QuoteString(a) + ")" == QuoteString(a) + ")" && "" + QuoteString(b) + ")" == QuoteString(b) + ")";
    ReadBack("", a, ")", b, ")");
  }

  /** The same entity as far as the target tells. */
  ghost predicate SameTarget(read: HexReader, a: Key, b: Key) {
    match (a, b)
    case (DocumentType(x), DocumentType(y)) => ShownOf(x) == ShownOf(y)
    case (NodeType(x), NodeType(y)) => ShownOf(x) == ShownOf(y)
    case (JobStatus(x), JobStatus(y)) => ShownOf(x) == ShownOf(y)
    case _ => SameEntity(read, a, b)
  }

  predicate TextKey(key: Key) {
    key.DocumentType? || key.NodeType? || key.JobStatus?
  }

  function PrefixOf(key: Key): string {
    match key
    case DocumentType(_) => DOCUMENT_TYPE
    case NodeType(_) => BO_NODE_TYPE
    case JobStatus(_) => JOB_STATUS
    case Relation(_, _) => RELATION
    case AllowedDomain(_) => ALLOWED_DOMAIN
    case TypeMap(_) => TYPE_MAP
  }

  lemma TextPrefixes()
    ensures '#' !in DOCUMENT_TYPE && '#' !in BO_NODE_TYPE && '#' !in JOB_STATUS
  {
  }

  lemma GuidPrefixes()
    ensures '#' !in RELATION && '#' !in ALLOWED_DOMAIN
  {
  }

  lemma TypeMapPrefix()
    ensures '#' !in TYPE_MAP
  {
  }

  lemma NothingCut(prefix: string, g: string, tail: string)
    requires '#' !in prefix && '#' !in g && '#' !in tail
    ensures Target(prefix + g + tail) == prefix + g + tail
  {
    AtAbsent(prefix + g + tail, '#');
  }

  /** The target of a text key's path. */
  lemma TextTarget(read: HexReader, key: Key)
    requires TextKey(key)
    ensures '#' !in PrefixOf(key) && Target(PathOf(read, key).value) == PrefixOf(key) + Wire(key.id)
  {
    TextPrefixes();
    TargetOfText(PrefixOf(key), key.id);
  }

  /** The path of a GUID key is sent whole. */
  lemma GuidTarget(read: HexReader, key: Key)
    requires PathOf(read, key).Some? && !TextKey(key)
    ensures Target(PathOf(read, key).value) == PathOf(read, key).value
  {
    GuidPrefixes();
    TypeMapPrefix();
    GuidShape(read, key.id);
    assert '#' !in ActiveText(true) && '#' !in ActiveText(false);
    NothingCut(PrefixOf(key), QuoteGuid(read, key.id).value, if key.Relation? then ActiveText(key.active) else ")");
  }

  lemma TargetMark(read: HexReader, key: Key)
    requires PathOf(read, key).Some?
    ensures var target := Target(PathOf(read, key).value);
            |target| > 12 && Mark(target) == MarkOf(key)
  {
    PathMark(read, key);
    if TextKey(key) {
      PrefixMarks();
      TextTarget(read, key);
      PrefixMark(PrefixOf(key), Wire(key.id));
    } else {
      GuidTarget(read, key);
    }
  }

  lemma PrefixMark(prefix: string, tail: string)
    requires |prefix| > 12
    ensures Mark(prefix + tail) == Mark(prefix)
  {
  }

  /**
    Two keys give one request exactly if they are keys of the same entity, where texts count up to
    their first '#' only: what follows it is never sent.
  */
  lemma TargetsExactly(read: HexReader, a: Key, b: Key)
    requires PathOf(read, a).Some? && PathOf(read, b).Some?
    ensures Target(PathOf(read, a).value) == Target(PathOf(read, b).value) <==> SameTarget(read, a, b)
  {
    TargetMark(read, a);
    TargetMark(read, b);
    if MarkOf(a) == MarkOf(b) {
      if TextKey(a) {
        TextTarget(read, a);
        TextTarget(read, b);
        SamePrefix(PrefixOf(a), Wire(a.id), Wire(b.id));
        WireExactly(a.id, b.id);
      } else {
        GuidTarget(read, a);
        GuidTarget(read, b);
        PathsExactly(read, a, b);
      }
    }
  }

  lemma SamePrefix(prefix: string, x: string, y: string)
    ensures prefix + x == prefix + y <==> x == y
  {
    assert (prefix + x)[|prefix|..] == x && (prefix + y)[|prefix|..] == y;
  }

  /** So keys without '#' are told apart by the request as they are by the path. */
  lemma TargetsTellApart(read: HexReader, a: Key, b: Key)
    requires PathOf(read, a).Some? && PathOf(read, b).Some? && '#' !in a.id && '#' !in b.id
    ensures Target(PathOf(read, a).value) == Target(PathOf(read, b).value) <==> SameEntity(read, a, b)
  {
    TargetsExactly(read, a, b);
    AtAbsent(a.id, '#');
    AtAbsent(b.id, '#');
    assert Target(a.id) == a.id && Target(b.id) == b.id;
  }

  /** And the path within the request is the whole key path exactly if the key has neither '#' nor '?'. */
  lemma WholePathExactly(read: HexReader, key: Key)
    requires TextKey(key)
    ensures PathWithin(Target(PathOf(read, key).value)) == PathOf(read, key).value <==> '#' !in key.id && '?' !in key.id
  {
    TextPrefixes();
    NoQuestion();
    WholeExactly(PathOf(read, key).value);
    InLiteral(PrefixOf(key), key.id, '#');
    InLiteral(PrefixOf(key), key.id, '?');
  }

  lemma WholeExactly(path: string)
    ensures PathWithin(Target(path)) == path <==> '#' !in path && '?' !in path
  {
    AtAbsent(path, '#');
    AtAbsent(path, '?');
    assert '#' !in path ==> Target(path) == path;
  }

  lemma NoQuestion()
    ensures '?' !in DOCUMENT_TYPE && '?' !in BO_NODE_TYPE && '?' !in JOB_STATUS
  {
  }

  lemma {:induction false} InDoubled(id: string, c: char)
    ensures c in Doubled(id) <==> c in id
  {
    if id != "" {
      InDoubled(id[1..], c);
      assert id == [id[0]] + id[1..];
    }
  }

  lemma InLiteral(prefix: string, id: string, c: char)
    requires c !in prefix && c != '\'' && c != ')'
    ensures c in prefix + QuoteString(id) + ")" <==> c in id
  {
    InDoubled(id, c);
  }
}
