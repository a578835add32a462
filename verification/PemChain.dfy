/**
 Scanning a PEM chain for certificate blocks, and writing it back.  A text is
 a sequence of characters, one per byte.  Decoding one block is an opaque
 partial function; the textual form of a block follows sections 2 and 5 of
 RFC 7468: boundary lines, with whichever line ends, around a body that holds no
 hyphen.
 */
module PemChain {
  import opened Options

  /** A certificate, as its DER encoding. */
  type Der = string

  datatype Markers = Markers(begin: string, end: string)

  const CERTIFICATE: Markers := Markers("-----BEGIN CERTIFICATE-----", "-----END CERTIFICATE-----")

  predicate IsAt(data: string, marker: string, i: nat) {
    i + |marker| <= |data| && MatchesFrom(data, marker, i, 0)
  }

  /** From the k-th character on, the marker stands in the text at position i. */
  predicate MatchesFrom(data: string, marker: string, i: nat, k: nat)
    requires i + |marker| <= |data| && k <= |marker|
    decreases |marker| - k
  {
    k == |marker| || (data[i + k] == marker[k] && MatchesFrom(data, marker, i, k + 1))
  }

  lemma {:induction false} MatchesIff(data: string, marker: string, i: nat, k: nat)
    requires i + |marker| <= |data| && k <= |marker|
    ensures MatchesFrom(data, marker, i, k) <==> forall j | k <= j < |marker| :: data[i..][j] == marker[j]
    decreases |marker| - k
  {
    if k < |marker| { MatchesIff(data, marker, i, k + 1); }
  }

  lemma IsAtIff(data: string, marker: string, i: nat)
    ensures IsAt(data, marker, i) <==> i + |marker| <= |data| && data[i..i + |marker|] == marker
  {
    if i + |marker| <= |data| {
      MatchesIff(data, marker, i, 0);
      assert data[i..i + |marker|] == data[i..][..|marker|];
      assert forall j | 0 <= j < |marker| :: data[i..][..|marker|][j] == data[i..][j];
    }
  }

  // ── Searching ────────────────────────────────────────────────────────────

  /** `data.find(marker, from)`, with None for -1. */
  function FindFrom(data: string, marker: string, from: nat): (r: Option<nat>)
    ensures r.Some? ==> from <= r.value && r.value + |marker| <= |data|
    decreases |data| - from
  {
    if |data| < from + |marker| then None
    else if IsAt(data, marker, from) then Some(from)
    else FindFrom(data, marker, from + 1)
  }

  /** The search returns the first occurrence, if there is one. */
  lemma {:induction false} FindsFirst(data: string, marker: string, from: nat, i: nat)
    requires from <= i && IsAt(data, marker, i)
    requires forall j: nat | from <= j < i :: !IsAt(data, marker, j)
    ensures FindFrom(data, marker, from) == Some(i)
    decreases i - from
  {
    if from < i {
      assert !IsAt(data, marker, from);
      FindsFirst(data, marker, from + 1, i);
    }
  }

  lemma {:induction false} FindsNothing(data: string, marker: string, from: nat)
    requires forall j: nat | from <= j :: !IsAt(data, marker, j)
    ensures FindFrom(data, marker, from) == None
    decreases |data| - from
  {
    if from + |marker| <= |data| {
      assert !IsAt(data, marker, from);
      FindsNothing(data, marker, from + 1);
    }
  }

  // ── Scanning ─────────────────────────────────────────────────────────────

  /** The extent of a block in a text. */
  datatype Span = Span(start: nat, stop: nat)

  /** Searching one text for one marker, from any position. */
  type Finder = nat -> Option<nat>

  ghost predicate Forward(f: Finder) {
    forall from: nat :: f(from).Some? ==> from <= f(from).value
  }

  /** The scan of a text of length n in terms of its searches: the extents of the
      blocks from `idx` on.  `w` is the length of the end marker. */
  function Spans(begin: Finder, end: Finder, w: nat, n: nat, idx: nat): seq<Span>
    requires w > 0 && Forward(begin) && Forward(end)
    decreases n - idx
  {
    if n <= idx then []
    else
      var i := begin(idx);
      if i.None? then []
      else
        var j := end(i.value);
        if j.None? then [] else [Span(i.value, j.value + w)] + Spans(begin, end, w, n, j.value + w)
  }

  lemma {:induction false} SpansNext(begin: Finder, end: Finder, w: nat, n: nat, idx: nat)
    requires w > 0 && Forward(begin) && Forward(end)
    ensures Spans(begin, end, w, n, idx) ==
            if idx < n && begin(idx).Some? && end(begin(idx).value).Some?
            then
              var stop := end(begin(idx).value).value + w;
              [Span(begin(idx).value, stop)] + Spans(begin, end, w, n, stop)
            else []
  {}

  /** The scan loop of a chain reader, with a moving index. */
  method ScanLoop(begin: Finder, end: Finder, w: nat, n: nat) returns (spans: seq<Span>)
    requires w > 0 && Forward(begin) && Forward(end)
    ensures spans == Spans(begin, end, w, n, 0)
  {
    spans := [];
    var idx := 0;
    ghost var all, todo := Spans(begin, end, w, n, 0), Spans(begin, end, w, n, 0);
    while idx < n
      invariant todo == Spans(begin, end, w, n, idx)
      invariant spans + todo == all
      decreases n - idx
    {
      SpansNext(begin, end, w, n, idx);
      var i := begin(idx);
      if i.None? { break; }
      var j := end(i.value);
      if j.None? { break; }
      ghost var rest := Spans(begin, end, w, n, j.value + w);
      MoveOver(spans, Span(i.value, j.value + w), rest);
      spans := spans + [Span(i.value, j.value + w)];
      idx, todo := j.value + w, rest;
    }
    assert todo == [] by { SpansNext(begin, end, w, n, idx); }
  }

  lemma MoveOver(left: seq<Span>, x: Span, right: seq<Span>)
    ensures left + ([x] + right) == left + [x] + right
  {}

  function Slice(data: string, a: nat, b: nat): string {
    if a <= b <= |data| then data[a..b] else ""
  }

  function Cut(data: string, spans: seq<Span>): (r: seq<string>)
    ensures |r| == |spans| && forall i | 0 <= i < |r| :: r[i] == Slice(data, spans[i].start, spans[i].stop)
  {
    seq(|spans|, i requires 0 <= i < |spans| => Slice(data, spans[i].start, spans[i].stop))
  }

  function BlocksOf(m: Markers, data: string): seq<string>
    requires m.end != ""
  {
    Cut(data, Spans((i: nat) => FindFrom(data, m.begin, i), (i: nat) => FindFrom(data, m.end, i), |m.end|, |data|, 0))
  }

  /** The certificate blocks of a text. */
  function Blocks(data: string): seq<string> {
    BlocksOf(CERTIFICATE, data)
  }

  method Scan(m: Markers, data: string) returns (blocks: seq<string>)
    requires m.end != ""
    ensures blocks == BlocksOf(m, data)
  {
    var spans := ScanLoop((i: nat) => FindFrom(data, m.begin, i), (i: nat) => FindFrom(data, m.end, i),
                          |m.end|, |data|);
    blocks := Cut(data, spans);
  }

  /** The first block that does not decode aborts the whole parse. */
  function DecodeAll(blocks: seq<string>, decode: string -> Option<Der>): Option<seq<Der>> {
    if blocks == [] then Some([])
    else
      var init := DecodeAll(blocks[..|blocks| - 1], decode);
      var last := decode(blocks[|blocks| - 1]);
      if init.None? || last.None? then None else Some(init.value + [last.value])
  }

  method ParseChain(data: string, decode: string -> Option<Der>) returns (certs: Option<seq<Der>>)
    ensures certs == DecodeAll(Blocks(data), decode)
  {
    var blocks := Scan(CERTIFICATE, data);
    certs := Some([]);
    for i := 0 to |blocks|
      invariant certs == DecodeAll(blocks[..i], decode)
    {
      assert blocks[..i + 1][..i] == blocks[..i];
      var c := decode(blocks[i]);
      certs := if certs.None? || c.None? then None else Some(certs.value + [c.value]);
    }
    assert blocks[..|blocks|] == blocks;
  }

  /** Decoding extents one after the other behind `acc`, for a way to decode the block at one. */
  function DecodeOn(acc: seq<Der>, spans: seq<Span>, at: Span -> Option<Der>): Option<seq<Der>>
    decreases |spans|
  {
    if spans == [] then Some(acc)
    else if at(spans[0]).None? then None
    else DecodeOn(acc + [at(spans[0]).value], spans[1..], at)
  }

  lemma {:induction false} DecodeOnNext(acc: seq<Der>, x: Span, rest: seq<Span>, at: Span -> Option<Der>)
    ensures DecodeOn(acc, [x] + rest, at) == if at(x).None? then None else DecodeOn(acc + [at(x).value], rest, at)
  {
    assert ([x] + rest)[1..] == rest;
  }

  lemma {:induction false} DecodeOnLast(acc: seq<Der>, spans: seq<Span>, x: Span, at: Span -> Option<Der>)
    ensures DecodeOn(acc, spans + [x], at) ==
            if DecodeOn(acc, spans, at).None? || at(x).None? then None
            else Some(DecodeOn(acc, spans, at).value + [at(x).value])
    decreases |spans|
  {
    if spans == [] {
      assert spans + [x] == [x] + [];
      DecodeOnNext(acc, x, [], at);
    } else {
      assert (spans + [x])[1..] == spans[1..] + [x];
      if at(spans[0]).Some? { DecodeOnLast(acc + [at(spans[0]).value], spans[1..], x, at); }
    }
  }

  lemma {:induction false} DecodeOnIs(data: string, spans: seq<Span>, at: Span -> Option<Der>,
                                      decode: string -> Option<Der>)
    requires forall x :: at(x) == decode(Slice(data, x.start, x.stop))
    ensures DecodeOn([], spans, at) == DecodeAll(Cut(data, spans), decode)
  {
    if spans != [] {
      var init, x := spans[..|spans| - 1], spans[|spans| - 1];
      DecodeOnIs(data, init, at, decode);
      DecodeOnLast([], init, x, at);
      assert spans == init + [x];
      DecodeCut(data, spans, decode);
    }
  }

  lemma {:induction false} DecodeCut(data: string, spans: seq<Span>, decode: string -> Option<Der>)
    requires spans != []
    ensures
      var x := spans[|spans| - 1];
      var init, last := DecodeAll(Cut(data, spans[..|spans| - 1]), decode), decode(Slice(data, x.start, x.stop));
      DecodeAll(Cut(data, spans), decode) ==
      if init.None? || last.None? then None else Some(init.value + [last.value])
  {
    assert Cut(data, spans)[..|spans| - 1] == Cut(data, spans[..|spans| - 1]);
  }

  /** The loop of the bundle writer, which decodes each block where it finds it. */
  method DecodeLoop(begin: Finder, end: Finder, w: nat, n: nat, at: Span -> Option<Der>)
    returns (extra: Option<seq<Der>>)
    requires w > 0 && Forward(begin) && Forward(end)
    ensures extra == DecodeOn([], Spans(begin, end, w, n, 0), at)
  {
    var certs: seq<Der> := [];
    var idx := 0;
    ghost var todo := Spans(begin, end, w, n, 0);
    ghost var result := DecodeOn([], todo, at);
    while idx < n
      invariant todo == Spans(begin, end, w, n, idx)
      invariant DecodeOn(certs, todo, at) == result
      decreases n - idx
    {
      SpansNext(begin, end, w, n, idx);
      var start := begin(idx);
      if start.None? { break; }
      var stop := end(start.value);
      if stop.None? { break; }
      var extent := Span(start.value, stop.value + w);
      ghost var rest := Spans(begin, end, w, n, stop.value + w);
      DecodeOnNext(certs, extent, rest, at);
      var c := at(extent);
      if c.None? { return None; }
      certs := certs + [c.value];
      idx, todo := stop.value + w, rest;
    }
    assert todo == [] by { SpansNext(begin, end, w, n, idx); }
    return Some(certs);
  }

  /** The extra certificates packed into a PKCS12 bundle: no chain, or an empty
      one, gives none; otherwise they are what parsing the chain gives. */
  method BundleExtras(chain: Option<string>, decode: string -> Option<Der>) returns (extra: Option<seq<Der>>)
    ensures extra == if chain.None? then Some([]) else DecodeAll(Blocks(chain.value), decode)
  {
    extra := Some([]);
    if chain.Some? && chain.value != "" { extra := DecodeFound(CERTIFICATE, chain.value, decode); }
  }

  method DecodeFound(m: Markers, data: string, decode: string -> Option<Der>) returns (extra: Option<seq<Der>>)
    requires m.end != ""
    ensures extra == DecodeAll(BlocksOf(m, data), decode)
  {
    var at: Span -> Option<Der> := (x: Span) => decode(Slice(data, x.start, x.stop));
    extra := DecodeLoop((i: nat) => FindFrom(data, m.begin, i), (i: nat) => FindFrom(data, m.end, i),
                        |m.end|, |data|, at);
    DecodeOnIs(data, Spans((i: nat) => FindFrom(data, m.begin, i), (i: nat) => FindFrom(data, m.end, i),
                              |m.end|, |data|, 0), at, decode);
  }

  // ── Blocks in a text ─────────────────────────────────────────────────────

  /** No hyphen, and no E at the start: behind the last hyphens of the BEGIN
      marker, a body END CERTIFICATE would already make an END marker. */
  predicate WellFormedBody(body: string) {
    body != "" && body[0] != 'E' && '-' !in body
  }

  function Block(m: Markers, body: string): string {
    m.begin + body + m.end
  }

  /** Filler, then a block. */
  datatype Piece = Piece(filler: string, body: string)

  function Write(m: Markers, pieces: seq<Piece>, tail: string): string {
    if pieces == [] then tail
    else pieces[0].filler + Block(m, pieces[0].body) + Write(m, pieces[1..], tail)
  }

  /** No BEGIN marker starts in any filler or in the tail, not even one that
      would run on into the text behind it. */
  ghost predicate Quiet(m: Markers, pieces: seq<Piece>, tail: string) {
    if pieces == [] then forall j: nat :: !IsAt(tail, m.begin, j)
    else
      && (forall j: nat | j < |pieces[0].filler| :: !IsAt(Write(m, pieces, tail), m.begin, j))
      && Quiet(m, pieces[1..], tail)
  }

  /** What the two markers look like, as far as the scan cares. */
  ghost predicate Shape(m: Markers) {
    && |m.begin| == 27 && |m.end| == 25
    && (forall i | 0 <= i < 27 :: m.begin[i] == '-' <==> i < 5 || 22 <= i)
    && m.begin[5] == 'B'
    && (forall i | 0 <= i < 5 :: m.end[i] == '-')
    && m.end[5] == 'E'
  }

  lemma CertificateShape()
    ensures Shape(CERTIFICATE)
  {}

  /** Inside a block, the END marker occurs only at its end. */
  lemma EndOnlyAtEnd(m: Markers, pre: string, body: string, post: string, j: nat)
    requires Shape(m) && WellFormedBody(body)
    requires |pre| <= j < |pre| + |m.begin| + |body|
    ensures !IsAt(pre + m.begin + body + post, m.end, j)
  {
    var data := pre + m.begin + body + post;
    var k := j - |pre|;
    // an offset at which the text and the marker differ
    var d := if k == 0 || k == 22 then 5 else if k < 5 then 4 else if 22 < k < 27 then 27 - k else 0;
    IsAtIff(data, m.end, j);
    assert j + |m.end| <= |data| ==> data[j..j + |m.end|][d] == data[j + d] != m.end[d];
  }

  lemma ShiftIsAt(pre: string, text: string, marker: string, j: nat)
    ensures IsAt(pre + text, marker, |pre| + j) <==> IsAt(text, marker, j)
  {
    IsAtIff(text, marker, j);
    IsAtIff(pre + text, marker, |pre| + j);
    if j + |marker| <= |text| {
      assert (pre + text)[|pre| + j..|pre| + j + |marker|] == text[j..j + |marker|];
    }
  }

  /** Where the scan stands before the k-th block. */
  function Resume(spans: seq<Span>, k: nat): nat
    requires k <= |spans|
  {
    if k == 0 then 0 else spans[k - 1].stop
  }

  /** The searches stop exactly at `spans`. */
  ghost predicate Delimit(begin: Finder, end: Finder, w: nat, spans: seq<Span>) {
    && (forall k {:trigger Resume(spans, k)} | 0 <= k < |spans| :: StopsAt(begin, end, w, Resume(spans, k), spans[k]))
    && begin(Resume(spans, |spans|)).None?
  }

  ghost predicate StopsAt(begin: Finder, end: Finder, w: nat, idx: nat, span: Span) {
    begin(idx) == Some(span.start) && w <= span.stop && end(span.start) == Some(span.stop - w)
  }

  lemma {:induction false} ScanFinds(begin: Finder, end: Finder, w: nat, n: nat, spans: seq<Span>, k: nat)
    requires w > 0 && Forward(begin) && Forward(end) && Delimit(begin, end, w, spans) && k <= |spans|
    requires forall i: nat | begin(i).Some? :: i < n
    ensures Spans(begin, end, w, n, Resume(spans, k)) == spans[k..]
    decreases |spans| - k
  {
    if k < |spans| {
      assert StopsAt(begin, end, w, Resume(spans, k), spans[k]);
      ScanFinds(begin, end, w, n, spans, k + 1);
      assert spans[k..] == [spans[k]] + spans[k + 1..];
    }
  }

  /** Where the markers of a block are in a text. */
  lemma Layout(pre: string, m: Markers, body: string, rest: string)
    ensures
      var data, b := pre + Block(m, body) + rest, |pre| + |m.begin| + |body|;
      && IsAt(data, m.begin, |pre|)
      && IsAt(data, m.end, b)
      && data[|pre|..b + |m.end|] == Block(m, body)
      && data == pre + m.begin + body + (m.end + rest)
  {
    var data := pre + Block(m, body) + rest;
    IsAtIff(data, m.begin, |pre|);
    IsAtIff(data, m.end, |pre| + |m.begin| + |body|);
    assert data[|pre|..|pre| + |m.begin|] == m.begin;
  }

  lemma FindsBegin(m: Markers, pre: string, p: Piece, rest: string)
    requires forall j: nat | j < |p.filler| :: !IsAt(p.filler + Block(m, p.body) + rest, m.begin, j)
    ensures FindFrom(pre + p.filler + Block(m, p.body) + rest, m.begin, |pre|) == Some(|pre + p.filler|)
  {
    var text := p.filler + Block(m, p.body) + rest;
    var data := pre + p.filler + Block(m, p.body) + rest;
    assert data == pre + text;
    forall j: nat | |pre| <= j < |pre + p.filler| ensures !IsAt(data, m.begin, j) {
      ShiftIsAt(pre, text, m.begin, j - |pre|);
    }
    Layout(pre + p.filler, m, p.body, rest);
    FindsFirst(data, m.begin, |pre|, |pre + p.filler|);
  }

  lemma FindsEnd(m: Markers, start: string, body: string, rest: string)
    requires Shape(m) && WellFormedBody(body)
    ensures FindFrom(start + Block(m, body) + rest, m.end, |start|) == Some(|start| + |m.begin| + |body|)
  {
    var data, b := start + Block(m, body) + rest, |start| + |m.begin| + |body|;
    Layout(start, m, body, rest);
    forall j: nat | |start| <= j < b ensures !IsAt(data, m.end, j) {
      EndOnlyAtEnd(m, start, body, m.end + rest, j);
    }
    FindsFirst(data, m.end, |start|, b);
  }

  /** The text in front of the k-th piece. */
  function Front(m: Markers, pieces: seq<Piece>, k: nat): string
    requires k <= |pieces|
  {
    if k == 0 then "" else Front(m, pieces, k - 1) + pieces[k - 1].filler + Block(m, pieces[k - 1].body)
  }

  lemma {:induction false} SplitAt(m: Markers, pieces: seq<Piece>, tail: string, k: nat)
    requires k <= |pieces|
    ensures Write(m, pieces, tail) == Front(m, pieces, k) + Write(m, pieces[k..], tail)
  {
    if k == 0 {
      assert pieces[0..] == pieces;
    } else {
      SplitAt(m, pieces, tail, k - 1);
      var left := pieces[k - 1..];
      assert left[0] == pieces[k - 1] && left[1..] == pieces[k..];
    }
  }

  lemma {:induction false} QuietAt(m: Markers, pieces: seq<Piece>, tail: string, k: nat)
    requires k <= |pieces| && Quiet(m, pieces, tail)
    ensures Quiet(m, pieces[k..], tail)
  {
    if k == 0 {
      assert pieces[0..] == pieces;
    } else {
      QuietAt(m, pieces, tail, k - 1);
      assert pieces[k - 1..][1..] == pieces[k..];
    }
  }

  /** The extent of the k-th block. */
  function Extent(m: Markers, pieces: seq<Piece>, k: nat): Span
    requires k < |pieces|
  {
    Span(|Front(m, pieces, k)| + |pieces[k].filler|, |Front(m, pieces, k + 1)|)
  }

  /** A written text around its k-th piece. */
  lemma AroundPiece(m: Markers, pieces: seq<Piece>, tail: string, k: nat)
    requires Quiet(m, pieces, tail) && k < |pieces|
    ensures
      var pre, p, rest := Front(m, pieces, k), pieces[k], Write(m, pieces[k + 1..], tail);
      && Write(m, pieces, tail) == pre + p.filler + Block(m, p.body) + rest
      && forall j: nat | j < |p.filler| :: !IsAt(p.filler + Block(m, p.body) + rest, m.begin, j)
  {
    var pre, p, rest := Front(m, pieces, k), pieces[k], Write(m, pieces[k + 1..], tail);
    SplitAt(m, pieces, tail, k);
    QuietAt(m, pieces, tail, k);
    assert pieces[k..][1..] == pieces[k + 1..];
    assert pre + (p.filler + Block(m, p.body) + rest) == pre + p.filler + Block(m, p.body) + rest;
  }

  lemma PieceBegin(m: Markers, pieces: seq<Piece>, tail: string, k: nat)
    requires Quiet(m, pieces, tail) && k < |pieces|
    ensures FindFrom(Write(m, pieces, tail), m.begin, |Front(m, pieces, k)|) == Some(Extent(m, pieces, k).start)
  {
    AroundPiece(m, pieces, tail, k);
    FindsBegin(m, Front(m, pieces, k), pieces[k], Write(m, pieces[k + 1..], tail));
  }

  lemma ExtentLength(m: Markers, pieces: seq<Piece>, k: nat)
    requires k < |pieces|
    ensures Extent(m, pieces, k).stop == Extent(m, pieces, k).start + |m.begin| + |pieces[k].body| + |m.end|
  {}

  lemma PieceEnd(m: Markers, pieces: seq<Piece>, tail: string, k: nat)
    requires Shape(m) && Quiet(m, pieces, tail) && k < |pieces| && WellFormedBody(pieces[k].body)
    ensures |m.end| <= Extent(m, pieces, k).stop
    ensures FindFrom(Write(m, pieces, tail), m.end, Extent(m, pieces, k).start) ==
            Some(Extent(m, pieces, k).stop - |m.end|)
  {
    var start, rest := Front(m, pieces, k) + pieces[k].filler, Write(m, pieces[k + 1..], tail);
    ExtentLength(m, pieces, k);
    assert Write(m, pieces, tail) == start + Block(m, pieces[k].body) + rest by { AroundPiece(m, pieces, tail, k); }
    FindsEnd(m, start, pieces[k].body, rest);
  }

  lemma PieceBlock(m: Markers, pieces: seq<Piece>, tail: string, k: nat)
    requires Quiet(m, pieces, tail) && k < |pieces|
    ensures Slice(Write(m, pieces, tail), Extent(m, pieces, k).start, Extent(m, pieces, k).stop) ==
            Block(m, pieces[k].body)
  {
    AroundPiece(m, pieces, tail, k);
    Layout(Front(m, pieces, k) + pieces[k].filler, m, pieces[k].body, Write(m, pieces[k + 1..], tail));
  }

  ghost predicate Searches(f: Finder, data: string, marker: string) {
    forall i: nat :: f(i) == FindFrom(data, marker, i)
  }

  lemma SearchBegins(m: Markers, pieces: seq<Piece>, tail: string, k: nat, begin: Finder)
    requires Quiet(m, pieces, tail) && k < |pieces| && Searches(begin, Write(m, pieces, tail), m.begin)
    ensures begin(|Front(m, pieces, k)|) == Some(Extent(m, pieces, k).start)
  {
    PieceBegin(m, pieces, tail, k);
  }

  lemma SearchEnds(m: Markers, pieces: seq<Piece>, tail: string, k: nat, end: Finder)
    requires Shape(m) && Quiet(m, pieces, tail) && k < |pieces| && WellFormedBody(pieces[k].body)
    requires Searches(end, Write(m, pieces, tail), m.end)
    ensures |m.end| <= Extent(m, pieces, k).stop
    ensures end(Extent(m, pieces, k).start) == Some(Extent(m, pieces, k).stop - |m.end|)
  {
    PieceEnd(m, pieces, tail, k);
  }

  lemma FindsNothingBehind(m: Markers, pieces: seq<Piece>, tail: string)
    requires Quiet(m, pieces, tail)
    ensures FindFrom(Write(m, pieces, tail), m.begin, |Front(m, pieces, |pieces|)|) == None
  {
    var pre := Front(m, pieces, |pieces|);
    SplitAt(m, pieces, tail, |pieces|);
    QuietAt(m, pieces, tail, |pieces|);
    forall j: nat | |pre| <= j ensures !IsAt(pre + tail, m.begin, j) { ShiftIsAt(pre, tail, m.begin, j - |pre|); }
    FindsNothing(pre + tail, m.begin, |pre|);
  }

  /** Scanning a written text gives back exactly its blocks, in order. */
  lemma ScanInvertsWrite(m: Markers, pieces: seq<Piece>, tail: string)
    requires Shape(m) && Quiet(m, pieces, tail) && forall p | p in pieces :: WellFormedBody(p.body)
    ensures
      var blocks := BlocksOf(m, Write(m, pieces, tail));
      |blocks| == |pieces| && forall i | 0 <= i < |pieces| :: blocks[i] == Block(m, pieces[i].body)
  {
    var data := Write(m, pieces, tail);
    var begin: Finder := (i: nat) => FindFrom(data, m.begin, i);
    var end: Finder := (i: nat) => FindFrom(data, m.end, i);
    var spans := seq(|pieces|, k requires 0 <= k < |pieces| => Extent(m, pieces, k));
    assert Delimit(begin, end, |m.end|, spans) by { WrittenDelimits(m, pieces, tail, begin, end, spans); }
    ScanFinds(begin, end, |m.end|, |data|, spans, 0);
    assert spans[0..] == spans;
    forall k | 0 <= k < |pieces| ensures Cut(data, spans)[k] == Block(m, pieces[k].body) {
      PieceBlock(m, pieces, tail, k);
    }
  }

  ghost predicate BeginsAt(begin: Finder, spans: seq<Span>) {
    && (forall k {:trigger Resume(spans, k)} | 0 <= k < |spans| :: begin(Resume(spans, k)) == Some(spans[k].start))
    && begin(Resume(spans, |spans|)).None?
  }

  ghost predicate EndsAt(end: Finder, w: nat, spans: seq<Span>) {
    forall k | 0 <= k < |spans| :: w <= spans[k].stop && end(spans[k].start) == Some(spans[k].stop - w)
  }

  /** At each piece of a written text, the search for BEGIN skips the filler; behind the last it fails. */
  lemma AllBegin(m: Markers, pieces: seq<Piece>, tail: string, begin: Finder, spans: seq<Span>)
    requires Quiet(m, pieces, tail) && Searches(begin, Write(m, pieces, tail), m.begin)
    requires |spans| == |pieces| && forall k | 0 <= k < |spans| :: spans[k] == Extent(m, pieces, k)
    ensures BeginsAt(begin, spans)
  {
    forall k | 0 <= k < |spans| ensures begin(Resume(spans, k)) == Some(spans[k].start) {
      SearchBegins(m, pieces, tail, k, begin);
    }
    FindsNothingBehind(m, pieces, tail);
  }

  /** And the search for END meets the block whole. */
  lemma AllEnd(m: Markers, pieces: seq<Piece>, tail: string, end: Finder, spans: seq<Span>)
    requires Shape(m) && Quiet(m, pieces, tail) && forall p | p in pieces :: WellFormedBody(p.body)
    requires Searches(end, Write(m, pieces, tail), m.end)
    requires |spans| == |pieces| && forall k | 0 <= k < |spans| :: spans[k] == Extent(m, pieces, k)
    ensures EndsAt(end, |m.end|, spans)
  {
    forall k | 0 <= k < |spans|
      ensures |m.end| <= spans[k].stop && end(spans[k].start) == Some(spans[k].stop - |m.end|)
    {
      assert pieces[k] in pieces;
      SearchEnds(m, pieces, tail, k, end);
    }
  }

  lemma StopsEverywhere(begin: Finder, end: Finder, w: nat, spans: seq<Span>)
    requires BeginsAt(begin, spans) && EndsAt(end, w, spans)
    ensures Delimit(begin, end, w, spans)
  {}

  lemma WrittenDelimits(m: Markers, pieces: seq<Piece>, tail: string, begin: Finder, end: Finder, spans: seq<Span>)
    requires Shape(m) && Quiet(m, pieces, tail) && forall p | p in pieces :: WellFormedBody(p.body)
    requires Searches(begin, Write(m, pieces, tail), m.begin) && Searches(end, Write(m, pieces, tail), m.end)
    requires |spans| == |pieces| && forall k | 0 <= k < |spans| :: spans[k] == Extent(m, pieces, k)
    ensures Delimit(begin, end, |m.end|, spans)
  {
    AllBegin(m, pieces, tail, begin, spans);
    AllEnd(m, pieces, tail, end, spans);
    StopsEverywhere(begin, end, |m.end|, spans);
  }

  // ── Certificates ─────────────────────────────────────────────────────────

  /** What is assumed of the certificate library: printing gives one block and
      a line break, and reading that block gives the certificate back. */
  datatype Codec = Codec(body: Der -> string, decode: string -> Option<Der>)

  ghost predicate Lawful(k: Codec) {
    && (forall c: Der :: WellFormedBody(k.body(c)))
    && (forall c: Der :: k.decode(Block(CERTIFICATE, k.body(c))) == Some(c))
  }

  lemma {:induction false} DecodesBodies(k: Codec, certs: seq<Der>, blocks: seq<string>)
    requires Lawful(k) && |blocks| == |certs|
    requires forall i | 0 <= i < |certs| :: blocks[i] == Block(CERTIFICATE, k.body(certs[i]))
    ensures DecodeAll(blocks, k.decode) == Some(certs)
    decreases |certs|
  {
    if certs != [] {
      DecodesBodies(k, certs[..|certs| - 1], blocks[..|blocks| - 1]);
      assert certs == certs[..|certs| - 1] + [certs[|certs| - 1]];
    }
  }

  /** Printed certificates in order, with any quiet filler between them, are
      parsed back to exactly those certificates in that order. */
  lemma ParseInvertsPrint(k: Codec, certs: seq<Der>, pieces: seq<Piece>, tail: string)
    requires Lawful(k) && |pieces| == |certs| && Quiet(CERTIFICATE, pieces, tail)
    requires forall i | 0 <= i < |certs| :: pieces[i].body == k.body(certs[i])
    ensures DecodeAll(Blocks(Write(CERTIFICATE, pieces, tail)), k.decode) == Some(certs)
  {
    CertificateShape();
    ScanInvertsWrite(CERTIFICATE, pieces, tail);
    DecodesBodies(k, certs, Blocks(Write(CERTIFICATE, pieces, tail)));
  }

  /** What an import writes back: each certificate printed, one after the other. */
  function Serialize(m: Markers, body: Der -> string, certs: seq<Der>): string {
    if certs == [] then "" else Block(m, body(certs[0])) + "\n" + Serialize(m, body, certs[1..])
  }

  /** The pieces of a serialised chain: each line break is the filler before the next block. */
  function Pieces(body: Der -> string, certs: seq<Der>, filler: string): (r: seq<Piece>)
    ensures |r| == |certs| && forall i | 0 <= i < |certs| :: r[i].body == body(certs[i])
  {
    if certs == [] then [] else [Piece(filler, body(certs[0]))] + Pieces(body, certs[1..], "\n")
  }

  lemma {:induction false} SerializedForm(m: Markers, body: Der -> string, certs: seq<Der>, filler: string)
    requires Shape(m) && filler in {"", "\n"}
    ensures
      var pieces, tail := Pieces(body, certs, filler), if certs == [] then filler else "\n";
      Write(m, pieces, tail) == filler + Serialize(m, body, certs) && Quiet(m, pieces, tail)
  {
    var pieces := Pieces(body, certs, filler);
    if certs != [] {
      SerializedForm(m, body, certs[1..], "\n");
      assert pieces[1..] == Pieces(body, certs[1..], "\n");
      var text, rest := Write(m, pieces, "\n"), Serialize(m, body, certs[1..]);
      assert text == filler + Block(m, body(certs[0])) + ("\n" + rest);
      assert Serialize(m, body, certs) == Block(m, body(certs[0])) + "\n" + rest;
      assert filler + (Block(m, body(certs[0])) + "\n" + rest) == text;
      forall j: nat | j < |filler| ensures !IsAt(text, m.begin, j) {
        assert text[0] == '\n';
      }
    } else {
      assert forall j: nat :: !IsAt(filler, m.begin, j);
    }
  }

  /** Writing parsed certificates back and parsing again gives the same
      certificates, so a stored chain is stable under another import. */
  lemma ReserializeIdempotent(k: Codec, data: string)
    requires Lawful(k)
    ensures
      var parsed := DecodeAll(Blocks(data), k.decode);
      parsed.Some? ==> DecodeAll(Blocks(Serialize(CERTIFICATE, k.body, parsed.value)), k.decode) == parsed
  {
    var parsed := DecodeAll(Blocks(data), k.decode);
    if parsed.Some? {
      var certs := parsed.value;
      CertificateShape();
      SerializedForm(CERTIFICATE, k.body, certs, "");
      var text := Serialize(CERTIFICATE, k.body, certs);
      assert "" + text == text;
      ParseInvertsPrint(k, certs, Pieces(k.body, certs, ""), if certs == [] then "" else "\n");
    }
  }
}
