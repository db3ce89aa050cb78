/** The file server's byte ranges: parsing a `Range` header and answering it. */
module ByteRange {
  import opened ByteText
  import opened Decimal

  const TWO_TO_63: int := 0x8000_0000_0000_0000
  const TWO_TO_64: int := 0x1_0000_0000_0000_0000
  type uint64 = x: int | 0 <= x < 0x1_0000_0000_0000_0000

  const RANGE_PREFIX: string := "bytes="

  /** `strconv.ParseUint(s, 10, 64)`. */
  function ParseUint(s: string): Option<uint64> {
    if s == [] || !AllDigits(s) || Value(s) >= TWO_TO_64 then None else Some(Value(s))
  }

  /** uint64 increment wraps around. */
  function Increment(x: uint64): (r: uint64)
    ensures r == x + 1 || (x == TWO_TO_64 - 1 && r == 0)
  {
    (x + 1) % TWO_TO_64
  }

  /** `parseRangeHeader`: start, and the exclusive end or 0. */
  function ParseRange(header: string): (uint64, uint64) {
    if !HasPrefix(header, RANGE_PREFIX) then (0, 0)
    else
      var spec := header[|RANGE_PREFIX|..];
      var k := IndexOf(spec, '-');
      if ',' in spec || k <= 0 || ParseUint(spec[..k]).None? then (0, 0)
      else if ParseUint(spec[k + 1..]).None? then (ParseUint(spec[..k]).value, 0)
      else (ParseUint(spec[..k]).value, Increment(ParseUint(spec[k + 1..]).value))
  }

  predicate IsUint(s: string) {
    s != [] && AllDigits(s) && Value(s) < TWO_TO_64
  }

  /** The header is `bytes=first-last`, one range whose first position is a number; the dash is the first one. */
  predicate IsRange(header: string, first: string, last: string) {
    header == "bytes=" + (first + ("-" + last)) && '-' !in first && ',' !in first && ',' !in last && IsUint(first)
  }

  /** What the header asks for: from the first position to past the last one if that is a number, which wraps at the
      largest, and to the end of the file (0) if not; any other header asks for nothing in particular. */
  ghost predicate Asks(header: string, start: int, end: int) {
    if exists first, last :: IsRange(header, first, last) then
      exists first, last ::
        && IsRange(header, first, last)
        && start == Value(first)
        && end == if !IsUint(last) || Value(last) == TWO_TO_64 - 1 then 0 else Value(last) + 1
    else start == 0 && end == 0
  }

  lemma RangeSplits(header: string, first: string, last: string)
    requires IsRange(header, first, last)
    ensures HasPrefix(header, RANGE_PREFIX)
    ensures var spec := header[|RANGE_PREFIX|..];
            && spec == first + ("-" + last) && ',' !in spec
            && IndexOf(spec, '-') == |first| && spec[..|first|] == first && spec[|first| + 1..] == last
  {
    var spec := first + ("-" + last);
    AfterPrefix(spec);
    assert spec[..|first|] == first;
    FirstPosition(spec, '-', |first|);
  }

  lemma AfterPrefix(spec: string)
    ensures HasPrefix(RANGE_PREFIX + spec, RANGE_PREFIX) && (RANGE_PREFIX + spec)[|RANGE_PREFIX|..] == spec
  {
  }

  lemma RangeFound(header: string)
    requires HasPrefix(header, RANGE_PREFIX)
    requires var spec := header[|RANGE_PREFIX|..]; var k := IndexOf(spec, '-');
             ',' !in spec && k > 0 && ParseUint(spec[..k]).Some?
    ensures exists first, last :: IsRange(header, first, last)
  {
    var spec := header[|RANGE_PREFIX|..];
    var k := IndexOf(spec, '-');
    var first, last := spec[..k], spec[k + 1..];
    assert spec == first + ("-" + last) && header == RANGE_PREFIX + spec;
    assert IsRange(header, first, last);
  }

  lemma RangeParses(header: string, first: string, last: string)
    requires IsRange(header, first, last)
    ensures ParseRange(header).0 == Value(first)
    ensures ParseRange(header).1 == if !IsUint(last) || Value(last) == TWO_TO_64 - 1 then 0 else Value(last) + 1
  {
    RangeSplits(header, first, last);
  }

  lemma NoRangeParses(header: string)
    requires !exists first, last :: IsRange(header, first, last)
    ensures ParseRange(header) == (0, 0)
  {
    if HasPrefix(header, RANGE_PREFIX) {
      var spec := header[|RANGE_PREFIX|..];
      var k := IndexOf(spec, '-');
      if ',' !in spec && k > 0 && ParseUint(spec[..k]).Some? {
        RangeFound(header);
        assert false;
      }
    }
  }

  /** For every header, what is parsed is what the header asks for, and only that. */
  lemma ParsesWhatIsAsked(header: string, start: int, end: int)
    ensures Asks(header, start, end) <==> start == ParseRange(header).0 && end == ParseRange(header).1
  {
    if exists first, last :: IsRange(header, first, last) {
      forall first, last | IsRange(header, first, last)
        ensures ParseRange(header).0 == Value(first)
        ensures ParseRange(header).1 == if !IsUint(last) || Value(last) == TWO_TO_64 - 1 then 0 else Value(last) + 1
      {
        RangeParses(header, first, last);
      }
    } else {
      NoRangeParses(header);
    }
  }

  datatype Response = Response(status: int, contentLength: Option<nat>, contentRange: Option<string>, body: Bytes)

  const NOT_SATISFIABLE: Response := Response(416, None, None, "Range Not Satisfiable")

  /** The `Content-Range` of the bytes from `first` to `last`. */
  function ContentRange(first: nat, last: nat, size: nat): string {
    "bytes " + Dec(first) + "-" + Dec(last) + "/" + Dec(size)
  }

  /** The answer that carries the bytes from `start` up to, not including, `end`. */
  function Partial(file: Bytes, start: nat, end: nat, head: bool): Response
    requires start < end <= |file|
  {
    Response(206, Some(end - start), Some(ContentRange(start, end - 1, |file|)), if head then [] else file[start..end])
  }

  function Whole(file: Bytes, head: bool): Response {
    Response(200, Some(|file|), None, if head then [] else file)
  }

  /** What the filter answers, by cases on the parsed range: a range past the end is refused, not clamped. */
  function Answer(file: Bytes, start: nat, end: nat, head: bool): Response {
    if start == 0 && end == 0 then Whole(file, head)
    else if end == 0 && start < |file| then Partial(file, start, |file|, head)
    else if start < end <= |file| then Partial(file, start, end, head)
    else NOT_SATISFIABLE
  }

  /** `r` answers a request for the bytes from `start` up to `end`, or to the end of the file when `end` is 0: the whole
      file when nothing in particular is asked for, a non-empty range inside the file, announced as such, and a refusal
      for any other. */
  predicate Serves(file: Bytes, head: bool, start: nat, end: nat, r: Response) {
    var stop := if end == 0 then |file| else end;
    if start == 0 && end == 0 then r == Response(200, Some(|file|), None, if head then [] else file)
    else if start < stop <= |file| then
      && r.status == 206
      && r.contentLength == Some(stop - start)
      && r.contentRange == Some("bytes " + Dec(start) + "-" + Dec(stop - 1) + "/" + Dec(|file|))
      && r.body == (if head then [] else file[start..stop])
    else r == Response(416, None, None, "Range Not Satisfiable")
  }

  lemma AnswerServes(file: Bytes, head: bool, start: nat, end: nat)
    ensures Serves(file, head, start, end, Answer(file, start, end, head))
  {
  }

  /** Every header asks for one thing, and the answer serves it. */
  lemma AnswersWhatIsAsked(header: string, file: Bytes, head: bool)
    ensures var p := ParseRange(header); var r := Answer(file, p.0, p.1, head);
            exists start: nat, end: nat :: Asks(header, start, end) && Serves(file, head, start, end, r)
  {
    var p := ParseRange(header);
    ParsesWhatIsAsked(header, p.0, p.1);
    AnswerServes(file, head, p.0, p.1);
  }

  /** The range branch of `OnRequestHeaders`. */
  method Serve(header: string, file: Bytes, head: bool) returns (r: Response)
    requires |file| < TWO_TO_63
    ensures exists start: nat, end: nat :: Asks(header, start, end) && Serves(file, head, start, end, r)
    ensures r == Answer(file, ParseRange(header).0, ParseRange(header).1, head)
  {
    var start, end := ParseRange(header).0, ParseRange(header).1;
    r := ServeRange(start, end, file, head);
    AnswersWhatIsAsked(header, file, head);
  }

  method ServeRange(start: uint64, end0: uint64, file: Bytes, head: bool) returns (r: Response)
    requires |file| < TWO_TO_63
    ensures r == Answer(file, start, end0, head)
  {
    var fileSize: uint64, end := |file|, end0;
    if start > fileSize || (end != 0 && end > fileSize) || (end != 0 && end < start) {
      return NOT_SATISFIABLE;
    }
    if start != 0 || end != 0 {
      if end == 0 {
        end := fileSize;
      }
      if start >= end {
        return NOT_SATISFIABLE;
      }
      var body: Bytes := [];
      if !head {
        body := file[start..end];
      }
      return Response(206, Some(end - start), Some(ContentRange(start, end - 1, fileSize)), body);
    } else {
      var body: Bytes := [];
      if !head {
        body := file;
      }
      return Response(200, Some(fileSize), None, body);
    }
  }

  // ----- Printed ranges. -----

  /** The header asking for the bytes from `a` to `b`, both included. */
  function Print(a: nat, b: nat): string {
    RANGE_PREFIX + Dec(a) + "-" + Dec(b)
  }

  /** The header asking for everything from `a` on. */
  function PrintFrom(a: nat): string {
    RANGE_PREFIX + Dec(a) + "-"
  }

  lemma ParseDec(n: nat)
    ensures ParseUint(Dec(n)) == if n < TWO_TO_64 then Some(n) else None
  {
    ValueOfDec(n);
  }

  /** The specification after `bytes=` splits at the dash between the two numerals. */
  lemma SpecSplits(a: nat, rest: string)
    requires ',' !in rest
    ensures var spec := Dec(a) + "-" + rest;
            && ',' !in spec
            && IndexOf(spec, '-') == |Dec(a)|
            && spec[..|Dec(a)|] == Dec(a) && spec[|Dec(a)| + 1..] == rest
  {
    var spec := Dec(a) + "-" + rest;
    assert spec[..|Dec(a)|] == Dec(a);
    FirstPosition(spec, '-', |Dec(a)|);
  }

  /** Parsing a printed range gives it back, with the end made exclusive; the largest end wraps to "open". */
  lemma ParsePrinted(a: nat, b: nat)
    requires a < TWO_TO_64 && b < TWO_TO_64
    ensures ParseRange(Print(a, b)) == (a, if b == TWO_TO_64 - 1 then 0 else b + 1)
  {
    var rest := Dec(b);
    var spec := Dec(a) + "-" + rest;
    SpecSplits(a, rest);
    AfterPrefix(spec);
    assert Print(a, b) == RANGE_PREFIX + spec;
    ParseDec(a);
    ParseDec(b);
  }

  lemma ParsePrintedFrom(a: nat)
    requires a < TWO_TO_64
    ensures ParseRange(PrintFrom(a)) == (a, 0)
  {
    var spec := Dec(a) + "-" + "";
    SpecSplits(a, "");
    AfterPrefix(spec);
    assert PrintFrom(a) == RANGE_PREFIX + spec;
    ParseDec(a);
  }

  /** A closed range is served exactly when it lies inside the file; otherwise it is refused, except that the end
      2^64 - 1 means "to the end of the file". */
  lemma ClosedRange(file: Bytes, a: nat, b: nat, head: bool)
    requires |file| < TWO_TO_63 && a < TWO_TO_64 && b < TWO_TO_64
    ensures var p := ParseRange(Print(a, b));
            Answer(file, p.0, p.1, head) ==
            if a <= b < |file| then Partial(file, a, b + 1, head)
            else if b < TWO_TO_64 - 1 then NOT_SATISFIABLE
            else if a == 0 then Whole(file, head)
            else if a < |file| then Partial(file, a, |file|, head)
            else NOT_SATISFIABLE
  {
    ParsePrinted(a, b);
  }

  lemma OpenRange(file: Bytes, a: nat, head: bool)
    requires |file| < TWO_TO_63 && a < TWO_TO_64
    ensures var p := ParseRange(PrintFrom(a));
            Answer(file, p.0, p.1, head) ==
            if a == 0 then Whole(file, head)
            else if a < |file| then Partial(file, a, |file|, head)
            else NOT_SATISFIABLE
  {
    ParsePrintedFrom(a);
  }
}
