/**
 Range requests on blobs (internal/api/blob.go), with Go's int64 arithmetic written out: parsing of
 the Range header, the clamping in the GET handler, and the slicing in two of the backends.
 */
module BlobRange {
  import opened Prelude

  const MIN64 := -0x8000_0000_0000_0000
  const MAX64 := 0x7FFF_FFFF_FFFF_FFFF

  const TWO64 := 0x1_0000_0000_0000_0000

  /** The int64 that a sum or difference x of two int64 values leaves. */
  function Wrap(x: int): int {
    if x > MAX64 then x - TWO64 else if x < MIN64 then x + TWO64 else x
  }

  // ----- Decimal numbers

  predicate IsDigit(c: char) {
    '0' <= c <= '9'
  }

  predicate AllDigits(s: string) {
    forall i :: 0 <= i < |s| ==> IsDigit(s[i])
  }

  function DigitsValue(s: string): nat
    requires AllDigits(s)
  {
    if s == "" then 0
    else
      var last := s[|s| - 1];
      assert IsDigit(last);
      10 * DigitsValue(s[..|s| - 1]) + (last as int - '0' as int)
  }

  /** strconv.ParseInt(s, 10, 64): an optional sign, then digits, in range. */
  function ParseInt(s: string): (r: Option<int>)
    ensures r.Some? ==> MIN64 <= r.value <= MAX64
  {
    var digits := if s != "" && (s[0] == '+' || s[0] == '-') then s[1..] else s;
    if digits == "" || !AllDigits(digits) then None
    else
      var v: int := DigitsValue(digits);
      var v := if s[0] == '-' then -v else v;
      if MIN64 <= v <= MAX64 then Some(v) else None
  }

  function Digit(d: nat): (c: char)
    requires d < 10
    ensures IsDigit(c) && c as int - '0' as int == d
  {
    (d + '0' as int) as char
  }

  /** The decimal digits of n, as strconv.FormatInt and every client write them. */
  function Decimal(n: nat): string {
    (if n < 10 then "" else Decimal(n / 10)) + [Digit(n % 10)]
  }

  lemma {:induction false} DecimalDigits(n: nat)
    ensures Decimal(n) != "" && AllDigits(Decimal(n)) && DigitsValue(Decimal(n)) == n
  {
    if n < 10 {
      DigitsSnoc("", n % 10);
    } else {
      DecimalDigits(n / 10);
      DigitsSnoc(Decimal(n / 10), n % 10);
    }
  }

  lemma DigitsSnoc(front: string, d: nat)
    requires AllDigits(front) && d < 10
    ensures AllDigits(front + [Digit(d)]) && DigitsValue(front + [Digit(d)]) == 10 * DigitsValue(front) + d
  {
    assert (front + [Digit(d)])[..|front|] == front;
  }

  /** A numeral without a minus sign that ParseInt reads as n. */
  ghost predicate Numeral(s: string, n: nat) {
    s != "" && '-' !in s && ParseInt(s) == Some(n)
  }

  lemma DecimalIsNumeral(n: nat)
    requires n <= MAX64
    ensures Numeral(Decimal(n), n)
  {
    DecimalDigits(n);
    var s := Decimal(n);
    forall i | 0 <= i < |s|
      ensures s[i] != '-'
    {
      assert IsDigit(s[i]);
    }
    assert IsDigit(s[0]);
  }

  // ----- The Range header

  /** What parseRange hands on; length 0 stands for "to the end". */
  datatype RangeSpec = RangeSpec(offset: int, length: int)

  function FirstDash(s: string): (i: nat)
    ensures i <= |s| && '-' !in s[..i]
    ensures i < |s| ==> s[i] == '-'
  {
    if s == "" || s[0] == '-' then 0
    else
      var i := FirstDash(s[1..]);
      assert s[..i + 1] == [s[0]] + s[1..][..i];
      i + 1
  }

  /** The range that the two parsed halves stand for; `open` when the second one is empty. */
  function Bounds(start: Option<int>, open: bool, end: Option<int>): (r: Option<RangeSpec>)
    ensures r.Some? ==> start.Some? && 0 <= r.value.offset == start.value
  {
    if start.None? || start.value < 0 then None
    else if open then Some(RangeSpec(start.value, 0))
    else if end.None? || end.value < 0 || end.value < start.value then None
    else Some(RangeSpec(start.value, Wrap(Wrap(end.value - start.value) + 1)))
  }

  function ParseHalves(rest: string): (r: Option<RangeSpec>)
    ensures r.Some? ==> 0 <= r.value.offset <= MAX64
  {
    var dash := FirstDash(rest);
    if dash == |rest| || dash == 0 then None
    else Bounds(ParseInt(rest[..dash]), rest[dash + 1..] == "", ParseInt(rest[dash + 1..]))
  }

  const UNIT := "bytes="

  /** None: the header is absent or not understood, and the whole blob is served. */
  function ParseRange(header: string): (r: Option<RangeSpec>)
    ensures r.Some? ==> 0 <= r.value.offset <= MAX64
  {
    if UNIT <= header then ParseHalves(header[|UNIT|..]) else None
  }

  /** "bytes=first-last", or "bytes=first-" (section 2.1 of RFC 7233). */
  function Header(first: string, last: string): string {
    "bytes=" + (first + "-" + last)
  }

  lemma {:induction false} FirstDashAfter(a: string, b: string)
    requires '-' !in a
    ensures FirstDash(a + "-" + b) == |a|
  {
    if a != "" {
      assert (a + "-" + b)[1..] == a[1..] + "-" + b;
      FirstDashAfter(a[1..], b);
    }
  }

  lemma ParseOfHalves(first: string, last: string)
    requires '-' !in first && first != ""
    ensures ParseRange(Header(first, last)) == Bounds(ParseInt(first), last == "", ParseInt(last))
  {
    var rest := first + "-" + last;
    FirstDashAfter(first, last);
    assert rest[..|first|] == first && rest[|first| + 1..] == last;
    var header := Header(first, last);
    assert header[|UNIT|..] == rest;
  }

  /** The length that parseRange computes for a closed range. */
  function AskedLength(start: nat, end: nat): int {
    if start == 0 && end == MAX64 then MIN64 else end - start + 1
  }

  /** Both RFC forms are read back as written, for all int64 positions; the length of the range
      from 0 to 2^63 - 1 wraps to -2^63. */
  lemma ParseClosedRange(first: string, last: string, start: nat, end: nat)
    requires Numeral(first, start) && Numeral(last, end) && start <= end
    ensures ParseRange(Header(first, last)) == Some(RangeSpec(start, AskedLength(start, end)))
  {
    ParseOfHalves(first, last);
    BoundsClosed(start, end);
  }

  lemma BoundsClosed(start: nat, end: nat)
    requires start <= end <= MAX64
    ensures Bounds(Some(start), false, Some(end)) == Some(RangeSpec(start, AskedLength(start, end)))
  {
  }

  lemma ParseOpenRange(first: string, start: nat)
    requires Numeral(first, start)
    ensures ParseRange(Header(first, "")) == Some(RangeSpec(start, 0))
  {
    ParseOfHalves(first, "");
  }

  /** Whatever the header, a range that is parsed starts at an int64 position and has a length that
      is 0, positive, or the one wrapped value. */
  lemma ParsedRangeBounds(header: string)
    requires ParseRange(header).Some?
    ensures var r := ParseRange(header).value;
      && 0 <= r.offset <= MAX64
      && (r.length >= 0 || (r.offset == 0 && r.length == MIN64))
      && r.offset + r.length <= MAX64 + 1
  {
  }

  /** ParseInt reads what FormatInt prints, with an optional sign, when the value is an int64. */
  lemma ParseIntReads(n: nat)
    ensures ParseInt(Decimal(n)) == ParseInt("+" + Decimal(n)) == if n <= MAX64 then Some(n) else None
    ensures ParseInt("-" + Decimal(n)) == if n <= MAX64 + 1 then Some(Negated(n)) else None
  {
    hide Decimal, DigitsValue, AllDigits, ParseInt;
    DecimalDigits(n);
    ParseIntOfDigits(Decimal(n));
  }

  lemma ParseIntOfDigits(d: string)
    requires d != "" && AllDigits(d)
    ensures ParseInt(d) == ParseInt("+" + d) == if DigitsValue(d) <= MAX64 then Some(DigitsValue(d)) else None
    ensures ParseInt("-" + d) == if DigitsValue(d) <= MAX64 + 1 then Some(Negated(DigitsValue(d))) else None
  {
    assert d[0] != '+' && d[0] != '-' by { assert IsDigit(d[0]); }
    hide DigitsValue, AllDigits;
    assert ("+" + d)[1..] == d && ("-" + d)[1..] == d;
  }

  function Negated(n: int): int {
    -n
  }

  /** Nothing but a sign and digits parses. */
  lemma ParseIntRefuses(s: string)
    requires ParseInt(s).Some?
    ensures s != "" && s != "+" && s != "-"
    ensures forall k :: 1 <= k < |s| ==> IsDigit(s[k])
  {
    hide IsDigit, DigitsValue;
    if s[0] == '+' || s[0] == '-' {
      assert forall k :: 1 <= k < |s| ==> s[k] == s[1..][k - 1];
    }
  }

  /** Which headers are understood: those of the two forms in which both numbers parse, are not negative
      and are in order. Everything else, "" among it, is served as a whole blob. */
  lemma Understood(header: string)
    ensures ParseRange(header).Some? <==>
      exists first, last :: header == Header(first, last) && '-' !in first && RangeNumbers(first, last)
  {
    hide ParseInt, FirstDash;
    if ParseRange(header).Some? {
      var first, last := UnderstoodHalves(header);
    }
    forall first, last | header == Header(first, last) && '-' !in first && RangeNumbers(first, last)
      ensures ParseRange(header).Some?
    {
      ParseOfHalves(first, last);
    }
  }

  lemma UnderstoodHalves(header: string) returns (first: string, last: string)
    requires ParseRange(header).Some?
    ensures header == Header(first, last) && '-' !in first && RangeNumbers(first, last)
  {
    hide ParseInt, FirstDash;
    var rest := header[|UNIT|..];
    var dash := FirstDash(rest);
    first, last := rest[..dash], rest[dash + 1..];
    assert header == UNIT + rest && rest == first + "-" + last;
    assert |first| == dash;
  }

  predicate RangeNumbers(first: string, last: string) {
    && first != "" && ParseInt(first).Some? && ParseInt(first).value >= 0
    && (last == "" || (ParseInt(last).Some? && ParseInt(first).value <= ParseInt(last).value))
  }

  // ----- Serving a blob

  datatype Backend = Memory | File

  /** The memory backend's slice; None stands for Go's slice-bounds panic. */
  function MemorySlice(data: Bytes, offset: int, length: int): Option<Bytes>
    requires 0 <= offset
  {
    if offset >= |data| then Some([])
    else
      var end := if length > 0 && Wrap(offset + length) < |data| then Wrap(offset + length) else |data|;
      if offset <= end then Some(data[offset..end]) else None
  }

  function GetBlob(backend: Backend, data: Bytes, offset: int, length: int): Option<Bytes>
    requires 0 <= offset
  {
    match backend
    case Memory => MemorySlice(data, offset, length)
    case File => Some(Section(data, offset, length))
  }

  datatype Reply =
    | NotFound
    | Full(body: Bytes)
    | Partial(first: int, last: int, total: int, contentLength: int, body: Bytes)
    | NotSatisfiable(total: int)
    | Panic

  /** The GET handler's answer for a blob and a parsed header. */
  function Serve(backend: Backend, stored: Option<Bytes>, range: Option<RangeSpec>): Reply
    requires range.Some? ==> 0 <= range.value.offset
  {
    if stored.None? then NotFound
    else
      var data := stored.value;
      match range
      case None => (match GetBlob(backend, data, 0, 0) case Some(body) => Full(body) case None => Panic)
      case Some(RangeSpec(offset, asked)) =>
        if offset >= |data| then NotSatisfiable(|data|)
        else
          var length := if asked <= 0 || Wrap(offset + asked) > |data| then |data| - offset else asked;
          match GetBlob(backend, data, offset, length)
          case None => Panic
          case Some(body) => Partial(offset, Wrap(Wrap(offset + length) - 1), |data|, length, body)
  }

  // ----- What the answer means

  /** The answer of sections 4.1, 4.2 and 4.4 of RFC 7233, in unbounded integers: the bytes from
      `start` to `end`, both included, cut at the end of the blob. */
  function Expected(data: Bytes, start: nat, end: int): Reply
    requires start <= end
  {
    if start >= |data| then NotSatisfiable(|data|)
    else
      var last := Min(end, |data| - 1);
      Partial(start, last, |data|, last - start + 1, data[start..last + 1])
  }

  /** Without a range the whole blob is served, by both backends. */
  lemma WholeServed(backend: Backend, data: Bytes)
    ensures Serve(backend, Some(data), None) == Full(data)
    ensures Serve(backend, None, None) == NotFound
  {
    assert data[0..|data|] == data;
  }

  /** Both backends deliver the same section wherever offset + length does not wrap. */
  lemma BackendsAgree(data: Bytes, offset: nat, length: int)
    requires offset <= MAX64 && offset + length <= MAX64
    ensures GetBlob(Memory, data, offset, length) == GetBlob(File, data, offset, length)
  {
  }

  /** For every range whose end is below 2^63 - 1, every blob and both backends the handler answers
      as the RFC says. At 2^63 - 1 it does so exactly when the range starts at 0 or past the blob. */
  lemma ClosedRangeServed(backend: Backend, data: Bytes, first: string, last: string, start: nat, end: nat)
    requires Numeral(first, start) && Numeral(last, end) && start <= end && |data| <= MAX64
    ensures Serve(backend, Some(data), ParseRange(Header(first, last))) == Expected(data, start, end)
        <==> !(end == MAX64 && 1 <= start < |data|)
  {
    ParseClosedRange(first, last, start, end);
    SpecServed(backend, data, start, end);
  }

  lemma SpecServed(backend: Backend, data: Bytes, start: nat, end: nat)
    requires start <= end <= MAX64 && |data| <= MAX64
    ensures Serve(backend, Some(data), Some(RangeSpec(start, AskedLength(start, end)))) == Expected(data, start, end)
        <==> !(end == MAX64 && 1 <= start < |data|)
  {
    if end == MAX64 && 1 <= start < |data| {
      OverflowingRange(backend, data, start);
    } else if start < |data| {
      assert Wrap(start + AskedLength(start, end)) == start + AskedLength(start, end);
    }
  }

  /** "bytes=start-" is the range to the last byte. */
  lemma OpenRangeServed(backend: Backend, data: Bytes, first: string, start: nat)
    requires Numeral(first, start) && |data| <= MAX64
    ensures Serve(backend, Some(data), ParseRange(Header(first, "")))
         == if start >= |data| then NotSatisfiable(|data|) else Expected(data, start, |data| - 1)
  {
    ParseOpenRange(first, start);
    hide Numeral, Header, ParseRange;
  }

  /** What happens in the excepted family: the sum offset + length wraps to a negative number and
      slips past the clamp. The memory backend then slices out of bounds; a file is read to its end
      under a Content-Length that promises more bytes than there are. */
  lemma OverflowingRange(backend: Backend, data: Bytes, start: nat)
    requires 1 <= start < |data| <= MAX64
    ensures var reply := Serve(backend, Some(data), Some(RangeSpec(start, MAX64 - start + 1)));
      match backend
      case Memory => reply == Panic
      case File => reply.Partial? && reply.body == data[start..] && reply.contentLength > |reply.body|
  {
    assert Wrap(start + (MAX64 - start + 1)) == MIN64;
  }

  /** Every answered header, well formed or not: a 206 has consistent positions and a body that is
      the blob's bytes at those positions, as long as the parsed range stays below 2^63. */
  lemma PartialIsConsistent(backend: Backend, data: Bytes, header: string)
    requires |data| <= MAX64
    requires ParseRange(header).Some? && ParseRange(header).value.offset + ParseRange(header).value.length <= MAX64
    ensures var reply := Serve(backend, Some(data), ParseRange(header));
      && (reply.NotSatisfiable? <==> ParseRange(header).value.offset >= |data|)
      && (reply.Partial? <==> ParseRange(header).value.offset < |data|)
      && (reply.Partial? ==>
            && 0 <= reply.first <= reply.last < reply.total == |data|
            && reply.contentLength == |reply.body| == reply.last - reply.first + 1
            && reply.body == data[reply.first..reply.last + 1])
  {
    ParsedRangeBounds(header);
    PartialOfSpec(backend, data, ParseRange(header).value);
  }

  lemma PartialOfSpec(backend: Backend, data: Bytes, range: RangeSpec)
    requires |data| <= MAX64
    requires 0 <= range.offset && range.offset + range.length <= MAX64
    requires range.length >= 0 || (range.offset == 0 && range.length == MIN64)
    ensures var reply := Serve(backend, Some(data), Some(range));
      && (reply.NotSatisfiable? <==> range.offset >= |data|)
      && (reply.Partial? <==> range.offset < |data|)
      && (reply.Partial? ==>
            && 0 <= reply.first <= reply.last < reply.total == |data|
            && reply.contentLength == |reply.body| == reply.last - reply.first + 1
            && reply.body == data[reply.first..reply.last + 1])
  {
    var RangeSpec(offset, asked) := range;
    if offset < |data| {
      var length := if asked <= 0 || offset + asked > |data| then |data| - offset else asked;
      assert Wrap(offset + length) == offset + length;
    }
  }

  // ----- Reassembling a blob

  /** Cut points in a blob of n bytes, strictly ascending. */
  ghost predicate Cuts(cuts: seq<nat>, n: nat) {
    && |cuts| >= 1
    && (forall i, j :: 0 <= i < j < |cuts| ==> cuts[i] < cuts[j])
    && (forall i :: 0 <= i < |cuts| ==> cuts[i] <= n)
  }

  function BodyOf(reply: Reply): Bytes {
    if reply.Partial? then reply.body else []
  }

  /** The body of the answer to the range from a up to, not including, b. */
  function Piece(backend: Backend, data: Bytes, a: nat, b: nat): Bytes
    requires a < b
  {
    BodyOf(Serve(backend, Some(data), ParseRange(Header(Decimal(a), Decimal(b - 1)))))
  }

  lemma PieceIsExpected(backend: Backend, data: Bytes, a: nat, b: nat)
    requires a < b <= |data| <= MAX64
    ensures Piece(backend, data, a, b) == BodyOf(Expected(data, a, b - 1))
  {
    DecimalIsNumeral(a);
    DecimalIsNumeral(b - 1);
    ClosedRangeServed(backend, data, Decimal(a), Decimal(b - 1), a, b - 1);
  }

  lemma ExpectedBody(data: Bytes, a: nat, b: nat)
    requires a < b <= |data|
    ensures BodyOf(Expected(data, a, b - 1)) == data[a..b]
  {
  }

  lemma {:induction false} SlicesJoin(data: Bytes, cuts: seq<nat>, pieces: seq<Bytes>)
    requires Cuts(cuts, |data|) && |pieces| == |cuts| - 1
    requires forall i :: 0 <= i < |pieces| ==> pieces[i] == data[cuts[i]..cuts[i + 1]]
    ensures cuts[0] <= cuts[|cuts| - 1]
    ensures Concat(pieces) == data[cuts[0]..cuts[|cuts| - 1]]
  {
    if |cuts| > 1 {
      SlicesJoin(data, cuts[1..], pieces[1..]);
      var a, b, c := cuts[0], cuts[1], cuts[|cuts| - 1];
      assert data[a..c] == data[a..b] + data[b..c];
    }
  }

  /** Adjacent ranges give back the bytes they cover, without gap or overlap: the bodies of the
      answers to the closed ranges between consecutive cut points, joined. */
  lemma AdjacentRangesCover(backend: Backend, data: Bytes, cuts: seq<nat>, pieces: seq<Bytes>)
    requires |data| <= MAX64 && Cuts(cuts, |data|) && |pieces| == |cuts| - 1
    requires forall i :: 0 <= i < |pieces| ==> pieces[i] == Piece(backend, data, cuts[i], cuts[i + 1])
    ensures cuts[0] <= cuts[|cuts| - 1]
    ensures Concat(pieces) == data[cuts[0]..cuts[|cuts| - 1]]
  {
    forall i | 0 <= i < |pieces|
      ensures pieces[i] == data[cuts[i]..cuts[i + 1]]
    {
      PieceIsExpected(backend, data, cuts[i], cuts[i + 1]);
      ExpectedBody(data, cuts[i], cuts[i + 1]);
    }
    SlicesJoin(data, cuts, pieces);
  }
}
