/** Which answers to a byte-range request are accepted (sections 14.4 and 15.3.7 of RFC 9110). */
module RangeResponse {
  import opened Slots
  import opened Octets

  const PARTIAL_CONTENT: nat := 206

  /** An answer: its status, its Content-Range header if any, and its body as it arrives. */
  datatype Response = Response(status: nat, contentRange: Option<string>, body: seq<seq<Byte>>)

  datatype Span = Span(start: nat, end: nat, total: nat)

  predicate IsDigit(ch: char) { '0' <= ch <= '9' }

  function DigitOf(ch: char): nat
    requires IsDigit(ch)
  {
    ch as int - '0' as int
  }

  function ParseDigits(s: string): Option<nat> {
    if s == [] then Some(0)
    else
      var n := |s| - 1;
      if !IsDigit(s[n]) then None
      else match ParseDigits(s[..n])
        case None => None
        case Some(v) => Some(10 * v + DigitOf(s[n]))
  }

  /** `str::parse::<u64>`: an optional plus sign, at least one digit, and no overflow. */
  function ParseU64(s: string): (r: Option<nat>)
    ensures r.Some? ==> r.value < U64_LIMIT
  {
    var digits := if s != [] && s[0] == '+' then s[1..] else s;
    if digits == [] then None
    else match ParseDigits(digits)
      case Some(v) => if v < U64_LIMIT then Some(v) else None
      case None => None
  }

  ghost predicate AllDigits(s: string) { forall i | 0 <= i < |s| :: IsDigit(s[i]) }

  lemma {:induction false} DigitsParse(s: string)
    ensures ParseDigits(s).Some? <==> AllDigits(s)
  {
    if s != [] { DigitsParse(s[..|s| - 1]); }
  }

  /** A number is accepted exactly when, after at most one plus sign, it has digits, nothing else, and fits. */
  lemma ParseU64Iff(s: string)
    ensures var digits := if s != [] && s[0] == '+' then s[1..] else s;
            && (ParseDigits(digits).Some? <==> AllDigits(digits))
            && (ParseU64(s).Some? <==> digits != [] && AllDigits(digits) && ParseDigits(digits).value < U64_LIMIT)
            && (ParseU64(s).Some? ==> ParseU64(s) == ParseDigits(digits))
  {
    DigitsParse(if s != [] && s[0] == '+' then s[1..] else s);
  }

  function Decimal(n: nat): (s: string)
    ensures s != [] && forall i | 0 <= i < |s| :: IsDigit(s[i])
  {
    if n < 10 then ['0' + n as char] else Decimal(n / 10) + ['0' + (n % 10) as char]
  }

  lemma {:induction false} ParseDecimal(n: nat)
    ensures ParseDigits(Decimal(n)) == Some(n)
  {
    var last := ['0' + (n % 10) as char];
    if n < 10 {
      assert Decimal(n)[..0] == [];
      assert ParseDigits([]) == Some(0);
    } else {
      ParseDecimal(n / 10);
      assert Decimal(n)[..|Decimal(n)| - 1] == Decimal(n / 10);
    }
  }

  /** `split_once`. */
  function SplitOnce(s: string, at: char): Option<(string, string)> {
    if s == [] then None
    else if s[0] == at then Some(([], s[1..]))
    else match SplitOnce(s[1..], at)
      case None => None
      case Some((a, b)) => Some(([s[0]] + a, b))
  }

  lemma {:induction false} SplitAt(a: string, at: char, b: string)
    requires at !in a
    ensures SplitOnce(a + [at] + b, at) == Some((a, b))
  {
    var s := a + [at] + b;
    if a == [] {
      assert s == [at] + b;
    } else {
      assert s[1..] == a[1..] + [at] + b;
      SplitAt(a[1..], at, b);
      assert [a[0]] + a[1..] == a;
    }
  }

  /** A split yields what lies before and after the first occurrence, and fails only when there is none. */
  lemma {:induction false} SplitsAtFirst(s: string, at: char)
    ensures match SplitOnce(s, at)
            case None => at !in s
            case Some((a, b)) => s == a + [at] + b && at !in a
  {
    if s != [] && s[0] != at {
      SplitsAtFirst(s[1..], at);
      assert s == [s[0]] + s[1..];
    }
  }

  const UNIT: string := "bytes "

  function ParseSpan(header: string): Option<Span> {
    if !(UNIT <= header) then None
    else match SplitOnce(header[|UNIT|..], '/')
      case None => None
      case Some((range, total)) =>
        match SplitOnce(range, '-')
        case None => None
        case Some((start, end)) =>
          match (ParseU64(start), ParseU64(end), ParseU64(total))
          case (Some(a), Some(b), Some(t)) => Some(Span(a, b, t))
          case _ => None
  }

  /** The header is the unit, then `a`, a dash, `b`, a slash and `t`, split at the first slash and the first dash. */
  ghost predicate SpanText(header: string, a: string, b: string, t: string) {
    header == UNIT + (a + ['-'] + b + ['/'] + t) && '-' !in a && '/' !in a && '/' !in b
  }

  ghost predicate Numbers(span: Span, a: string, b: string, t: string) {
    ParseU64(a) == Some(span.start) && ParseU64(b) == Some(span.end) && ParseU64(t) == Some(span.total)
  }

  lemma SpanTextParses(header: string, a: string, b: string, t: string)
    requires SpanText(header, a, b, t)
    ensures ParseSpan(header)
         == if ParseU64(a).Some? && ParseU64(b).Some? && ParseU64(t).Some?
            then Some(Span(ParseU64(a).value, ParseU64(b).value, ParseU64(t).value)) else None
  {
    assert header[|UNIT|..] == (a + ['-'] + b) + ['/'] + t;
    SplitAt(a + ['-'] + b, '/', t);
    SplitAt(a, '-', b);
  }

  /** A header is read exactly when it has that form and its three numbers are accepted, and then as them. */
  lemma ParseSpanIff(header: string, span: Span)
    ensures ParseSpan(header) == Some(span) <==> exists a, b, t :: SpanText(header, a, b, t) && Numbers(span, a, b, t)
  {
    if a, b, t :| SpanText(header, a, b, t) && Numbers(span, a, b, t) {
      SpanTextParses(header, a, b, t);
    }
    if ParseSpan(header) == Some(span) {
      var rest := header[|UNIT|..];
      SplitsAtFirst(rest, '/');
      var (range, t) := SplitOnce(rest, '/').value;
      SplitsAtFirst(range, '-');
      var (a, b) := SplitOnce(range, '-').value;
      assert header == UNIT + rest;
      assert rest == a + ['-'] + b + ['/'] + t;
      assert SpanText(header, a, b, t) && Numbers(span, a, b, t);
    }
  }

  /** An object of unknown length is refused. */
  lemma UnknownLengthRefused(a: string, b: string)
    requires '-' !in a && '/' !in a && '/' !in b
    ensures ParseSpan(UNIT + (a + ['-'] + b + ['/'] + "*")) == None
  {
    SpanTextParses(UNIT + (a + ['-'] + b + ['/'] + "*"), a, b, "*");
    ParseU64Iff("*");
  }

  /** The range an answer claims to carry, if it is a partial answer with a sane Content-Range. */
  function ContentRange(r: Response): (span: Option<Span>)
    ensures span.Some? <==>
              && r.status == PARTIAL_CONTENT && r.contentRange.Some? && ParseSpan(r.contentRange.value).Some?
              && var s := ParseSpan(r.contentRange.value).value; s.start <= s.end < s.total
    ensures span.Some? ==> span == ParseSpan(r.contentRange.value)
  {
    if r.status != PARTIAL_CONTENT || r.contentRange.None? then None
    else match ParseSpan(r.contentRange.value)
      case Some(span) => if span.start <= span.end < span.total then Some(span) else None
      case None => None
  }

  function Render(span: Span): string {
    UNIT + (Decimal(span.start) + ['-'] + Decimal(span.end) + ['/'] + Decimal(span.total))
  }

  lemma ParseU64Decimal(n: nat)
    requires n < U64_LIMIT
    ensures ParseU64(Decimal(n)) == Some(n)
  {
    ParseDecimal(n);
    assert IsDigit(Decimal(n)[0]);
  }

  /** The header a server writes for a range is read back as that range. */
  lemma SpanRoundTrip(span: Span)
    requires span.start < U64_LIMIT && span.end < U64_LIMIT && span.total < U64_LIMIT
    ensures ParseSpan(Render(span)) == Some(span)
  {
    var a, b, t := Decimal(span.start), Decimal(span.end), Decimal(span.total);
    assert Render(span)[|UNIT|..] == (a + ['-'] + b) + ['/'] + t;
    SplitAt(a + ['-'] + b, '/', t);
    SplitAt(a, '-', b);
    ParseU64Decimal(span.start);
    ParseU64Decimal(span.end);
    ParseU64Decimal(span.total);
  }

  function Flatten(chunks: seq<seq<Byte>>): seq<Byte> {
    if chunks == [] then [] else chunks[0] + Flatten(chunks[1..])
  }

  lemma {:induction false} FlattenSplit(chunks: seq<seq<Byte>>, i: nat)
    requires i < |chunks|
    ensures Flatten(chunks[..i + 1]) == Flatten(chunks[..i]) + chunks[i]
    ensures |Flatten(chunks[..i])| <= |Flatten(chunks)|
  {
    if i == 0 {
      assert chunks[..1][1..] == [] && chunks[..1][0] == chunks[0] && chunks[..0] == [];
    } else {
      FlattenSplit(chunks[1..], i - 1);
      assert chunks[..i + 1][1..] == chunks[1..][..i] && chunks[..i][1..] == chunks[1..][..i - 1];
    }
  }

  /** A 206 for exactly the range and length asked for, carrying as many bytes as the range. */
  ghost predicate Acceptable(start: nat, end: nat, total: Option<nat>, r: Response) {
    var span := ContentRange(r);
    && span.Some? && span.value.start == start && span.value.end == end
    && (total.Some? ==> span.value.total == total.value)
    && |Flatten(r.body)| == end - start + 1
  }

  /** A request for bytes `start..=end` of an object, with its length when known. A body that overflows is
      refused before it has all arrived. */
  method Accept(start: nat, end: nat, total: Option<nat>, r: Response) returns (result: Option<(nat, seq<Byte>)>)
    requires start <= end
    ensures result.Some? <==> Acceptable(start, end, total, r)
    ensures result.Some? <==>
              && ContentRange(r).Some? && ContentRange(r).value.start == start && ContentRange(r).value.end == end
              && (total.Some? ==> ContentRange(r).value.total == total.value) && |Flatten(r.body)| == end - start + 1
    ensures result.Some? ==> result.value == (ContentRange(r).value.total, Flatten(r.body))
  {
    var span := ContentRange(r);
    if span.None? || span.value.start != start || span.value.end != end
       || (total.Some? && total.value != span.value.total) {
      return None;
    }
    var expected := end - start + 1;
    var bytes := [];
    for i := 0 to |r.body|
      invariant bytes == Flatten(r.body[..i]) && |bytes| <= expected
    {
      FlattenSplit(r.body, i);
      if |r.body[i]| > expected - |bytes| {
        PrefixShorter(r.body, i + 1);
        return None;
      }
      bytes := bytes + r.body[i];
    }
    assert r.body[..|r.body|] == r.body;
    if |bytes| != expected { return None; }
    return Some((span.value.total, bytes));
  }

  lemma PrefixShorter(chunks: seq<seq<Byte>>, i: nat)
    requires i <= |chunks|
    ensures |Flatten(chunks[..i])| <= |Flatten(chunks)|
  {
    if i == |chunks| {
      assert chunks[..i] == chunks;
    } else {
      FlattenSplit(chunks, i);
    }
  }

  /** The answer of a server that holds `bytes` and honours the range. */
  function Honest(bytes: seq<Byte>, span: Span): Response
    requires span.start <= span.end < span.total == |bytes|
  {
    Response(PARTIAL_CONTENT, Some(Render(span)), [bytes[span.start..span.end + 1]])
  }

  /** An honest answer to the request made is accepted and yields the object's bytes; an honest answer for
      any other range is refused. */
  lemma HonestIffAsked(bytes: seq<Byte>, start: nat, end: nat, span: Span)
    requires start <= end && span.start <= span.end < span.total == |bytes| < U64_LIMIT
    ensures Acceptable(start, end, Some(|bytes|), Honest(bytes, span)) <==> start == span.start && end == span.end
    ensures Flatten(Honest(bytes, span).body) == bytes[span.start..span.end + 1]
  {
    SpanRoundTrip(span);
    var r := Honest(bytes, span);
    assert Flatten(r.body) == r.body[0] + Flatten(r.body[1..]);
  }
}
