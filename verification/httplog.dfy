/**
  `HttpFormatter`: a logging formatter that, for records of the `httplogger` channel,
  appends the request and response of an HTTP round trip to the base formatter's output,
  headers rendered one `key: value` per line.
*/
module HttpLog {
  import opened Wrappers

  /** Header mappings, in their iteration order. */
  type Headers = seq<(string, string)>

  datatype Request = Request(httpMethod: string, url: string, headers: Headers, body: Option<string>)

  datatype Response = Response(statusCode: nat, reason: string, url: string, headers: Headers, text: string)

  /** A log record as the formatter sees it: the logger's name, the message, and the `req`
      and `res` attributes a round-trip hook attaches through `extra` (absent otherwise). */
  datatype LogRecord = LogRecord(name: string, msg: string, roundtrip: Option<(Request, Response)>)

  /** The `AttributeError` raised when an `httplogger` record carries no `req`. */
  datatype FormatError = MissingAttribute(name: string)

  const Channel: string := "httplogger"
  const RequestRule: string := "---------------- request ----------------"
  const ResponseRule: string := "---------------- response ----------------"

  /** `sep.join(parts)`. */
  function Join(parts: seq<string>, sep: string): string
  {
    if |parts| == 0 then ""
    else if |parts| == 1 then parts[0]
    else parts[0] + sep + Join(parts[1..], sep)
  }

  /** The lines `_formatHeaders` joins: `f'{k}: {v}'` for each header, in order. */
  function HeaderLines(h: Headers): (ls: seq<string>)
    ensures |ls| == |h|
  {
    seq(|h|, i requires 0 <= i < |h| => h[i].0 + ": " + h[i].1)
  }

  /** `_formatHeaders(d)`: empty exactly for an empty mapping. */
  function FormatHeaders(h: Headers): (r: string)
    ensures r == "" <==> h == []
  {
    var ls := HeaderLines(h);
    assert h != [] ==> |ls[0]| >= 2;
    Join(ls, "\n")
  }

  function Digit(d: nat): (c: char)
    requires d < 10
    ensures IsDigit(c) && c as int - '0' as int == d
  {
    ('0' as int + d) as char
  }

  predicate IsDigit(c: char) {
    '0' <= c <= '9'
  }

  /** The number a string of decimal digits denotes. */
  function DigitsValue(s: string): nat
    requires forall i :: 0 <= i < |s| ==> IsDigit(s[i])
  {
    if s == [] then 0
    else
      assert IsDigit(s[|s| - 1]);
      DigitsValue(s[..|s| - 1]) * 10 + (s[|s| - 1] as int - '0' as int)
  }

  /** The form `str` gives a non-negative integer: decimal digits, at least one, and no
      leading zero unless the number is zero. */
  predicate Canonical(s: string) {
    && |s| >= 1
    && (forall i :: 0 <= i < |s| ==> IsDigit(s[i]))
    && (s[0] == '0' ==> s == "0")
  }

  /** `str(n)` for a status code. */
  function Decimal(n: nat): (s: string)
    ensures Canonical(s) && '\n' !in s
    ensures n < 10 <==> |s| == 1
  {
    if n < 10 then [Digit(n)] else Decimal(n / 10) + [Digit(n % 10)]
  }

  /** The digits `str` prints read back as the status code. */
  lemma {:induction false} DecimalValue(n: nat)
    ensures DigitsValue(Decimal(n)) == n
  {
    if n >= 10 {
      var p := Decimal(n / 10);
      assert (p + [Digit(n % 10)])[..|p|] == p;
      DecimalValue(n / 10);
    }
  }

  /** A string of digits without a leading zero starts with a non-zero digit, so it denotes
      a positive number. */
  lemma {:induction false} LeadingDigitPositive(s: string)
    requires |s| >= 1 && (forall i :: 0 <= i < |s| ==> IsDigit(s[i])) && s[0] != '0'
    ensures DigitsValue(s) >= 1
  {
    if |s| > 1 {
      LeadingDigitPositive(s[..|s| - 1]);
    }
  }

  /** Every canonical digit string is what `str` prints for the number it denotes: the
      rendering is one-to-one and misses no canonical form. */
  lemma {:induction false} DecimalOfValue(s: string)
    requires Canonical(s)
    ensures Decimal(DigitsValue(s)) == s
  {
    if |s| > 1 {
      var p := s[..|s| - 1];
      LeadingDigitPositive(p);
      DecimalOfValue(p);
      assert s == p + [s[|s| - 1]];
    }
  }

  /** `str(body)`: a missing body prints as `None`. */
  function Show(body: Option<string>): string
  {
    match body
    case None => "None"
    case Some(s) => s
  }

  /** The lines of the block `formatMessage` appends: the template after `textwrap.dedent`
      (a leading newline, its eleven lines, a trailing newline), with the request and the
      response substituted. The two header blocks may span several lines. */
  function BlockLines(req: Request, res: Response): seq<string>
  {
    RequestHead(req) + [FormatHeaders(req.headers)] + Middle(req, res) + [FormatHeaders(res.headers)] + Tail(res)
  }

  function RequestHead(req: Request): seq<string>
  {
    ["", RequestRule, req.httpMethod + " " + req.url]
  }

  function Middle(req: Request, res: Response): seq<string>
  {
    ["", Show(req.body), ResponseRule, Decimal(res.statusCode) + " " + res.reason + " " + res.url]
  }

  function Tail(res: Response): seq<string>
  {
    ["", res.text, ""]
  }

  function Block(req: Request, res: Response): string
  {
    Join(BlockLines(req, res), "\n")
  }

  /** `formatMessage(record)`: the base formatter's output (`base` stands for
      `logging.Formatter.formatMessage`), followed, for the `httplogger` channel only, by the
      round-trip block. Records of other channels pass through unchanged. */
  function FormatMessage(base: LogRecord -> string, record: LogRecord): (r: Result<string, FormatError>)
    ensures record.name != Channel ==> r == Success(base(record))
    ensures record.name == Channel ==> (r.Success? <==> record.roundtrip.Some?)
    ensures r.Success? ==> base(record) <= r.value
  {
    var result := base(record);
    if record.name == Channel then
      match record.roundtrip
      case None => Failure(MissingAttribute("req"))
      case Some((req, res)) => Success(result + Block(req, res))
    else Success(result)
  }

  /** `s.split("\n")`. */
  function SplitLines(s: string): (r: seq<string>)
    ensures |r| >= 1
  {
    if s == [] then [""]
    else
      var rest := SplitLines(s[1..]);
      if s[0] == '\n' then [""] + rest else [[s[0]] + rest[0]] + rest[1..]
  }

  /** The split of every part, one after another. */
  function SplitAll(parts: seq<string>): seq<string>
  {
    if parts == [] then [] else SplitLines(parts[0]) + SplitAll(parts[1..])
  }

  ghost predicate NoNewline(s: string) { '\n' !in s }

  /** A line without a newline splits into itself. */
  lemma {:induction false} SplitSingle(s: string)
    requires NoNewline(s)
    ensures SplitLines(s) == [s]
  {
    if s != [] {
      SplitSingle(s[1..]);
      assert [s[0]] + s[1..] == s;
    }
  }

  /** Splitting at a newline splits the two sides independently. */
  lemma {:induction false} SplitAppend(a: string, b: string)
    ensures SplitLines(a + "\n" + b) == SplitLines(a) + SplitLines(b)
    decreases |a|
  {
    if a == [] {
      assert a + "\n" + b == "\n" + b;
      assert ("\n" + b)[1..] == b;
    } else {
      assert (a + "\n" + b)[1..] == a[1..] + "\n" + b;
      SplitAppend(a[1..], b);
    }
  }

  /** `split` undoes `join`, part by part. */
  lemma {:induction false} SplitJoin(parts: seq<string>)
    requires parts != []
    ensures SplitLines(Join(parts, "\n")) == SplitAll(parts)
    decreases |parts|
  {
    if |parts| == 1 {
      assert SplitAll(parts) == SplitLines(parts[0]) + SplitAll([]);
    } else {
      SplitAppend(parts[0], Join(parts[1..], "\n"));
      SplitJoin(parts[1..]);
    }
  }

  /** Newline-free lines split back into themselves. */
  lemma {:induction false} SplitAllSingles(ls: seq<string>)
    requires forall i :: 0 <= i < |ls| ==> NoNewline(ls[i])
    ensures SplitAll(ls) == ls
    decreases |ls|
  {
    if ls != [] {
      SplitSingle(ls[0]);
      SplitAllSingles(ls[1..]);
    }
  }

  ghost predicate PlainHeaders(h: Headers) {
    forall i :: 0 <= i < |h| ==> NoNewline(h[i].0) && NoNewline(h[i].1)
  }

  /** The lines a header block occupies: one `key: value` line per header, in order, or
      one empty line for no headers. */
  function HeaderBlock(h: Headers): seq<string>
  {
    if h == [] then [""] else HeaderLines(h)
  }

  /** `_formatHeaders` writes exactly one `key: value` line per header, in mapping order,
      separated by newlines and without a trailing one: splitting its output at newlines
      gives those lines back. */
  lemma HeadersRecovered(h: Headers)
    requires PlainHeaders(h)
    ensures SplitLines(FormatHeaders(h)) == HeaderBlock(h)
    ensures h != [] ==> |SplitLines(FormatHeaders(h))| == |h|
  {
    if h != [] {
      var ls := HeaderLines(h);
      forall i | 0 <= i < |ls| ensures NoNewline(ls[i]) {
        assert ls[i] == h[i].0 + ": " + h[i].1;
      }
      SplitJoin(ls);
      SplitAllSingles(ls);
    }
  }

  /** SplitAll distributes over concatenation. */
  lemma {:induction false} SplitAllAppend(a: seq<string>, b: seq<string>)
    ensures SplitAll(a + b) == SplitAll(a) + SplitAll(b)
    decreases |a|
  {
    if a != [] {
      assert (a + b)[1..] == a[1..] + b;
      SplitAllAppend(a[1..], b);
    } else {
      assert a + b == b;
    }
  }

  /** The layout of the appended block, line by line, in order: a blank line, the request
      rule, `method url`, the request headers, a blank line, the body, the response rule,
      `status reason url`, the response headers, a blank line, the text, and the final
      newline. */
  lemma BlockLayout(req: Request, res: Response)
    requires PlainHeaders(req.headers) && PlainHeaders(res.headers)
    requires NoNewline(req.httpMethod) && NoNewline(req.url) && NoNewline(Show(req.body))
    requires NoNewline(res.reason) && NoNewline(res.url) && NoNewline(res.text)
    ensures SplitLines(Block(req, res)) ==
      RequestHead(req) + HeaderBlock(req.headers) + Middle(req, res) + HeaderBlock(res.headers) + Tail(res)
  {
    var a, b, c := RequestHead(req), Middle(req, res), Tail(res);
    assert NoNewline(RequestRule) && NoNewline(ResponseRule);
    assert forall i :: 0 <= i < |a| ==> NoNewline(a[i]);
    assert forall i :: 0 <= i < |b| ==> NoNewline(b[i]);
    assert forall i :: 0 <= i < |c| ==> NoNewline(c[i]);
    Layout(a, req.headers, b, res.headers, c);
  }

  /** Splitting lines joined around two header blocks gives back the lines and the headers'
      lines, in order. */
  lemma Layout(a: seq<string>, h1: Headers, b: seq<string>, h2: Headers, c: seq<string>)
    requires forall i :: 0 <= i < |a| ==> NoNewline(a[i])
    requires forall i :: 0 <= i < |b| ==> NoNewline(b[i])
    requires forall i :: 0 <= i < |c| ==> NoNewline(c[i])
    requires PlainHeaders(h1) && PlainHeaders(h2)
    ensures SplitLines(Join(a + [FormatHeaders(h1)] + b + [FormatHeaders(h2)] + c, "\n")) ==
      a + HeaderBlock(h1) + b + HeaderBlock(h2) + c
  {
    var x1, x2 := [FormatHeaders(h1)], [FormatHeaders(h2)];
    SplitJoin(a + x1 + b + x2 + c);
    SplitAllAppend(a + x1 + b + x2, c);
    SplitAllAppend(a + x1 + b, x2);
    SplitAllAppend(a + x1, b);
    SplitAllAppend(a, x1);
    SplitAllSingles(a);
    SplitAllSingles(b);
    SplitAllSingles(c);
    HeadersRecovered(h1);
    HeadersRecovered(h2);
    SplitAllOne(FormatHeaders(h1));
    SplitAllOne(FormatHeaders(h2));
  }

  lemma SplitAllOne(x: string)
    ensures SplitAll([x]) == SplitLines(x)
  {
  }

  /** An `httplogger` record comes out as the base output followed by the block; splitting
      that block at newlines gives, in order, the request line, the request headers, the
      body, the status line, the response headers and the text. */
  lemma ChannelMessage(base: LogRecord -> string, record: LogRecord)
    requires record.name == Channel && record.roundtrip.Some?
    requires var (req, res) := record.roundtrip.value;
      && PlainHeaders(req.headers) && PlainHeaders(res.headers)
      && NoNewline(req.httpMethod) && NoNewline(req.url) && NoNewline(Show(req.body))
      && NoNewline(res.reason) && NoNewline(res.url) && NoNewline(res.text)
    ensures var (req, res) := record.roundtrip.value;
      && FormatMessage(base, record).Success?
      && var out := FormatMessage(base, record).value;
         && out[..|base(record)|] == base(record)
         && SplitLines(out[|base(record)|..]) ==
              RequestHead(req) + HeaderBlock(req.headers) + Middle(req, res) + HeaderBlock(res.headers) + Tail(res)
  {
    var (req, res) := record.roundtrip.value;
    BlockLayout(req, res);
    var out := FormatMessage(base, record).value;
    assert out == base(record) + Block(req, res);
    assert out[|base(record)|..] == Block(req, res);
  }
}
