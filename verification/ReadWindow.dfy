/** `createAgentReadWindow` and how its windows tile a file; `truncateUtf8` of the bridge. */
module ReadWindow {
  import opened Bytes
  import opened Text
  import opened Utf8

  /** A JavaScript number as far as the request checks look: an integer, or anything else. */
  datatype Number = Whole(value: int) | NotWhole

  datatype Request = Request(offsetBytes: Option<Number>, maxBytes: Number, maxAllowedBytes: Option<Number>)

  datatype Error = InvalidOffset | OffsetPastEof | OffsetNotBoundary | InvalidWindowSize | WindowTooSmall

  datatype Window = Window(
    content: string, offsetBytes: nat, returnedBytes: nat, nextOffsetBytes: Option<nat>,
    totalBytes: nat, complete: bool)

  datatype Result<+T> = Ok(value: T) | Err(error: Error)

  function MinInt(a: int, b: int): int { if a < b then a else b }

  predicate IsBoundary(bytes: seq<byte>, i: nat)
    requires i <= |bytes|
  {
    i == |bytes| || !IsContinuation(bytes[i])
  }

  /** The last boundary between `offset` and `limit`; `offset` itself if there is none after it. */
  function LastBoundary(bytes: seq<byte>, offset: nat, limit: nat): (end: nat)
    requires offset <= limit <= |bytes|
    ensures offset <= end <= limit
    ensures end == offset || IsBoundary(bytes, end)
    ensures forall j :: end < j <= limit ==> !IsBoundary(bytes, j)
  {
    if limit == offset || IsBoundary(bytes, limit) then limit else LastBoundary(bytes, offset, limit - 1)
  }

  /** The requested size after the cap by the allowed maximum, if both are positive integers. */
  function WindowSize(request: Request): (size: Option<nat>)
    ensures size.Some? ==> size.value >= 1
  {
    match request.maxBytes
    case NotWhole => None
    case Whole(max) =>
      match request.maxAllowedBytes
      case None => if max >= 1 then Some(max) else None
      case Some(NotWhole) => None
      case Some(Whole(allowed)) => if max >= 1 && allowed >= 1 then Some(MinInt(max, allowed)) else None
  }

  function WindowEnd(bytes: seq<byte>, offset: nat, size: nat): (end: nat)
    requires offset <= |bytes|
    ensures offset <= end <= |bytes| && end <= offset + size
  {
    LastBoundary(bytes, offset, MinInt(|bytes|, offset + size))
  }

  /** The decoded text of the bytes between two boundaries: its characters less a leading mark. */
  function TextBetween(content: string, i: nat, j: nat): string
    requires i <= j <= |Encode(content)|
    requires IsBoundary(Encode(content), i) && IsBoundary(Encode(content), j)
  {
    WindowText(content, i, j);
    DecodeText(Encode(content)[i..j]).value
  }

  /** Where the window of at most `size` bytes from `offset` ends, or why there is none. */
  function NextEnd(bytes: seq<byte>, offset: nat, size: nat): Result<nat> {
    if offset > |bytes| then Err(OffsetPastEof)
    else if !IsBoundary(bytes, offset) then Err(OffsetNotBoundary)
    else
      var end := WindowEnd(bytes, offset, size);
      if end == offset && offset < |bytes| then Err(WindowTooSmall) else Ok(end)
  }

  function MakeWindow(content: string, offset: nat, end: nat): Window
    requires offset <= end <= |Encode(content)|
    requires IsBoundary(Encode(content), offset) && IsBoundary(Encode(content), end)
  {
    var total := |Encode(content)|;
    Window(TextBetween(content, offset, end), offset, end - offset,
           if end >= total then None else Some(end), total, end >= total)
  }

  function WindowAt(content: string, offset: nat, size: nat): Result<Window> {
    match NextEnd(Encode(content), offset, size)
    case Err(e) => Err(e)
    case Ok(end) => Ok(MakeWindow(content, offset, end))
  }

  /** What a request gets: the error of the first check that fails, or the window it asks for. */
  function Requested(content: string, request: Request): Result<Window> {
    var offset := if request.offsetBytes.None? then Whole(0) else request.offsetBytes.value;
    if offset.NotWhole? || offset.value < 0 then Err(InvalidOffset)
    else if offset.value > |Encode(content)| then Err(OffsetPastEof)
    else if !IsBoundary(Encode(content), offset.value) then Err(OffsetNotBoundary)
    else match WindowSize(request)
      case None => Err(InvalidWindowSize)
      case Some(size) => WindowAt(content, offset.value, size)
  }

  method NormalizePositiveInteger(value: Number, fallbackMaximum: Number) returns (r: Result<Number>)
    ensures r.Err? <==> value.NotWhole? || value.value < 1
    ensures r.Err? ==> r.error == InvalidWindowSize
    ensures r.Ok? && fallbackMaximum.Whole? ==>
              r.value == Whole(MinInt(value.value, if fallbackMaximum.value > 1 then fallbackMaximum.value else 1))
  {
    if value.NotWhole? || value.value < 1 {
      return Err(InvalidWindowSize);
    }
    match fallbackMaximum {
      case Whole(m) => r := Ok(Whole(MinInt(value.value, if m > 1 then m else 1)));
      case NotWhole => r := Ok(NotWhole);
    }
  }

  method EffectiveSize(request: Request) returns (r: Result<nat>)
    ensures r == match WindowSize(request) case None => Err(InvalidWindowSize) case Some(size) => Ok(size)
  {
    var allowed := NormalizePositiveInteger(
      if request.maxAllowedBytes.None? then request.maxBytes else request.maxAllowedBytes.value, request.maxBytes);
    if allowed.Err? {
      return Err(allowed.error);
    }
    var requested := NormalizePositiveInteger(request.maxBytes, allowed.value);
    if requested.Err? {
      return Err(requested.error);
    }
    r := Ok(MinInt(requested.value.value, allowed.value.value));
  }

  /** Step back from the byte limit to a character boundary. */
  method BackUp(bytes: seq<byte>, offsetBytes: nat, maxBytes: nat) returns (end: nat)
    requires offsetBytes <= |bytes|
    ensures end == WindowEnd(bytes, offsetBytes, maxBytes)
  {
    var limit := MinInt(|bytes|, offsetBytes + maxBytes);
    end := limit;
    while end > offsetBytes && end < |bytes| && IsContinuation(bytes[end])
      invariant offsetBytes <= end <= limit
      invariant LastBoundary(bytes, offsetBytes, end) == LastBoundary(bytes, offsetBytes, limit)
    {
      end := end - 1;
    }
  }

  method CutWindow(content: string, offsetBytes: nat, maxBytes: nat) returns (r: Result<Window>)
    requires offsetBytes <= |Encode(content)| && IsBoundary(Encode(content), offsetBytes)
    ensures r == WindowAt(content, offsetBytes, maxBytes)
  {
    var bytes := Encode(content);
    var end := BackUp(bytes, offsetBytes, maxBytes);
    if end == offsetBytes && offsetBytes < |bytes| {
      return Err(WindowTooSmall);
    }
    CutIsWindow(content, offsetBytes, maxBytes, end);
    var complete := end >= |bytes|;
    var text := DecodeText(bytes[offsetBytes..end]);
    r := Ok(Window(text.value, offsetBytes, end - offsetBytes, if complete then None else Some(end), |bytes|, complete));
  }

  lemma {:induction false} CutIsWindow(content: string, offset: nat, size: nat, end: nat)
    requires offset <= |Encode(content)| && IsBoundary(Encode(content), offset)
    requires end == WindowEnd(Encode(content), offset, size) && (end == offset ==> offset == |Encode(content)|)
    ensures IsBoundary(Encode(content), end)
    ensures DecodeText(Encode(content)[offset..end]) == Some(TextBetween(content, offset, end))
    ensures WindowAt(content, offset, size) == Ok(MakeWindow(content, offset, end))
  {
    WindowText(content, offset, end);
  }

  method CreateAgentReadWindow(content: string, request: Request) returns (r: Result<Window>)
    ensures r == Requested(content, request)
  {
    var bytes := Encode(content);
    var offset := if request.offsetBytes.None? then Whole(0) else request.offsetBytes.value;
    if offset.NotWhole? || offset.value < 0 {
      return Err(InvalidOffset);
    }
    var offsetBytes: nat := offset.value;
    if offsetBytes > |bytes| {
      return Err(OffsetPastEof);
    }
    if offsetBytes < |bytes| && IsContinuation(bytes[offsetBytes]) {
      return Err(OffsetNotBoundary);
    }
    var maxBytes := EffectiveSize(request);
    if maxBytes.Err? {
      return Err(maxBytes.error);
    }
    r := CutWindow(content, offsetBytes, maxBytes.value);
  }

  // ---------------------------------------------------------------------------
  // Boundaries are character offsets
  // ---------------------------------------------------------------------------

  /** The index of the character that begins at boundary `i`. */
  function IndexAt(content: string, i: nat): (k: nat)
    requires i <= |Encode(content)|
    ensures k <= |content|
  {
    if i == |Encode(content)| then |content| else CharAt(content, i)
  }

  /** A boundary is where some character begins, or the end. */
  lemma {:induction false} BoundaryIsCharacterOffset(content: string, i: nat)
    requires i <= |Encode(content)|
    ensures IsBoundary(Encode(content), i) <==> OffsetOf(content, IndexAt(content, i)) == i
  {
    if i < |Encode(content)| {
      CharAtHolds(content, i);
    } else {
      assert content[..|content|] == content;
    }
  }

  /** Every character begins at a boundary. */
  lemma {:induction false} CharacterOffsetIsBoundary(content: string, k: nat)
    requires k <= |content|
    ensures OffsetOf(content, k) <= |Encode(content)|
    ensures IsBoundary(Encode(content), OffsetOf(content, k))
    ensures IndexAt(content, OffsetOf(content, k)) == k
  {
    var i := OffsetOf(content, k);
    SliceBetween(content, k, |content|);
    assert content[..|content|] == content;
    if i < |Encode(content)| {
      var j := CharAt(content, i);
      CharAtHolds(content, i);
      if j < k { OffsetsGrow(content, j + 1, k); }
      if j > k { OffsetsGrow(content, k, j); }
    } else {
      OffsetsGrow(content, k, |content|);
    }
  }

  lemma {:induction false} IndicesGrow(content: string, i: nat, j: nat)
    requires i <= j <= |Encode(content)|
    requires IsBoundary(Encode(content), i) && IsBoundary(Encode(content), j)
    ensures IndexAt(content, i) <= IndexAt(content, j)
    ensures i < j ==> IndexAt(content, i) < IndexAt(content, j)
  {
    BoundaryIsCharacterOffset(content, i);
    BoundaryIsCharacterOffset(content, j);
    var a, b := IndexAt(content, i), IndexAt(content, j);
    if b < a { OffsetsGrow(content, b, a); }
  }

  /** The bytes between two boundaries are whole characters, so decoding them cannot fail. */
  lemma {:induction false} WindowText(content: string, i: nat, j: nat)
    requires i <= j <= |Encode(content)|
    requires IsBoundary(Encode(content), i) && IsBoundary(Encode(content), j)
    ensures IndexAt(content, i) <= IndexAt(content, j)
    ensures Encode(content)[i..j] == Encode(content[IndexAt(content, i)..IndexAt(content, j)])
    ensures DecodeText(Encode(content)[i..j]) == Some(DropBom(content[IndexAt(content, i)..IndexAt(content, j)]))
  {
    BoundaryIsCharacterOffset(content, i);
    BoundaryIsCharacterOffset(content, j);
    IndicesGrow(content, i, j);
    var a, b := IndexAt(content, i), IndexAt(content, j);
    SliceBetween(content, a, b);
    DecodeEncode(content[a..b]);
  }

  lemma {:induction false} NextFits(content: string, offset: nat, size: nat)
    requires offset < |Encode(content)| && IsBoundary(Encode(content), offset)
    requires size >= |EncodeChar(content[CharAt(content, offset)])|
    ensures WindowEnd(Encode(content), offset, size) > offset
  {
    var k := CharAt(content, offset);
    BoundaryIsCharacterOffset(content, offset);
    OffsetStep(content, k);
    SliceBetween(content, k, k + 1);
    CharacterOffsetIsBoundary(content, k + 1);
  }

  lemma {:induction false} NextDoesNotFit(content: string, offset: nat, size: nat)
    requires offset < |Encode(content)| && IsBoundary(Encode(content), offset)
    requires size < |EncodeChar(content[CharAt(content, offset)])|
    ensures WindowEnd(Encode(content), offset, size) == offset
  {
    var k, end := CharAt(content, offset), WindowEnd(Encode(content), offset, size);
    BoundaryIsCharacterOffset(content, offset);
    OffsetStep(content, k);
    if end > offset {
      BoundaryIsCharacterOffset(content, end);
      IndicesGrow(content, offset, end);
      OffsetsGrow(content, k + 1, IndexAt(content, end));
    }
  }

  /** From a boundary before the end, a window fails exactly when the next character does not fit. */
  lemma {:induction false} TooSmallIffNextDoesNotFit(content: string, offset: nat, size: nat)
    requires offset < |Encode(content)| && IsBoundary(Encode(content), offset)
    ensures WindowAt(content, offset, size) == Err(WindowTooSmall)
            <==> size < |EncodeChar(content[CharAt(content, offset)])|
    ensures WindowAt(content, offset, size).Ok? <==> size >= |EncodeChar(content[CharAt(content, offset)])|
  {
    if size < |EncodeChar(content[CharAt(content, offset)])| {
      NextDoesNotFit(content, offset, size);
    } else {
      NextFits(content, offset, size);
    }
  }

  // ---------------------------------------------------------------------------
  // Which window a request gets
  // ---------------------------------------------------------------------------

  predicate GoodSizes(request: Request) {
    && request.maxBytes.Whole? && request.maxBytes.value >= 1
    && (request.maxAllowedBytes.Some? ==> request.maxAllowedBytes.value.Whole? && request.maxAllowedBytes.value.value >= 1)
  }

  predicate GoodOffset(request: Request) {
    request.offsetBytes.Some? ==> request.offsetBytes.value.Whole? && request.offsetBytes.value.value >= 0
  }

  function OffsetAsked(request: Request): nat
    requires GoodOffset(request)
  {
    if request.offsetBytes.Some? then request.offsetBytes.value.value else 0
  }

  /** The first of these that applies is the error of a request, and a request without one gets a window. */
  lemma {:induction false} RefusedBecause(content: string, request: Request)
    ensures Requested(content, request) == Err(InvalidOffset) <==> !GoodOffset(request)
    ensures GoodOffset(request) ==>
              (Requested(content, request) == Err(OffsetPastEof) <==> OffsetAsked(request) > |Encode(content)|)
    ensures GoodOffset(request) && OffsetAsked(request) <= |Encode(content)| ==>
              (Requested(content, request) == Err(OffsetNotBoundary)
               <==> OffsetAsked(request) < |Encode(content)| && IsContinuation(Encode(content)[OffsetAsked(request)]))
    ensures GoodOffset(request) && OffsetAsked(request) <= |Encode(content)| && IsBoundary(Encode(content), OffsetAsked(request)) ==>
              && (Requested(content, request) == Err(InvalidWindowSize) <==> !GoodSizes(request))
              && (GoodSizes(request) ==> Requested(content, request).Ok? || Requested(content, request) == Err(WindowTooSmall))
  {
  }

  /** The window fits `size`, and the character behind it would not. */
  ghost predicate Longest(content: string, offset: nat, size: nat, end: nat) {
    && offset <= end <= |Encode(content)| && IsBoundary(Encode(content), end) && end - offset <= size
    && (end < |Encode(content)| ==> end + |EncodeChar(content[CharAt(content, end)])| - offset > size)
  }

  lemma {:induction false} WindowIsLongest(content: string, offset: nat, size: nat)
    requires offset <= |Encode(content)| && IsBoundary(Encode(content), offset)
    ensures Longest(content, offset, size, WindowEnd(Encode(content), offset, size))
  {
    var bytes, end := Encode(content), WindowEnd(Encode(content), offset, size);
    if end < |bytes| {
      var left := offset + size - end;
      assert WindowEnd(bytes, end, left) == end;
      TooSmallIffNextDoesNotFit(content, end, left);
    }
  }

  /** The window shows where it stands in the file, and is the longest run of whole characters that fits. */
  ghost predicate IsWindow(content: string, offset: nat, size: nat, w: Window, end: nat) {
    var total := |Encode(content)|;
    && Longest(content, offset, size, end) && w.offsetBytes == offset && w.returnedBytes == end - offset && w.totalBytes == total
    && (w.complete <==> end == total) && w.nextOffsetBytes == (if end == total then None else Some(end))
    && DecodeText(Encode(content)[offset..end]) == Some(w.content)
  }

  lemma {:induction false} CutIsLongest(content: string, offset: nat, size: nat)
    requires offset <= |Encode(content)| && IsBoundary(Encode(content), offset) && WindowAt(content, offset, size).Ok?
    ensures IsWindow(content, offset, size, WindowAt(content, offset, size).value, WindowEnd(Encode(content), offset, size))
  {
    WindowIsLongest(content, offset, size);
    MadeWindow(content, offset, size, WindowEnd(Encode(content), offset, size));
  }

  lemma {:induction false} MadeWindow(content: string, offset: nat, size: nat, end: nat)
    requires offset <= |Encode(content)| && IsBoundary(Encode(content), offset) && Longest(content, offset, size, end)
    ensures IsWindow(content, offset, size, MakeWindow(content, offset, end), end)
  {
    WindowText(content, offset, end);
  }

  lemma {:induction false} RequestedSize(content: string, request: Request, size: nat)
    requires GoodOffset(request) && GoodSizes(request)
    requires size == if request.maxAllowedBytes.Some? && request.maxAllowedBytes.value.value < request.maxBytes.value
                     then request.maxAllowedBytes.value.value else request.maxBytes.value
    requires OffsetAsked(request) <= |Encode(content)| && IsBoundary(Encode(content), OffsetAsked(request))
    ensures Requested(content, request) == WindowAt(content, OffsetAsked(request), size)
  {
  }

  /**
   * A request with a good offset and good sizes gets a window exactly when the next character fits the smaller size, or
   * there is none: the longest run of whole characters from the offset that fits, with its place in the file.
   */
  lemma {:induction false} WindowExactly(content: string, request: Request, size: nat)
    requires GoodOffset(request) && GoodSizes(request)
    requires size == if request.maxAllowedBytes.Some? && request.maxAllowedBytes.value.value < request.maxBytes.value
                     then request.maxAllowedBytes.value.value else request.maxBytes.value
    requires OffsetAsked(request) <= |Encode(content)| && IsBoundary(Encode(content), OffsetAsked(request))
    ensures Requested(content, request).Ok?
            <==> OffsetAsked(request) == |Encode(content)|
                 || |EncodeChar(content[CharAt(content, OffsetAsked(request))])| <= size
    ensures Requested(content, request).Ok? ==>
              exists end :: IsWindow(content, OffsetAsked(request), size, Requested(content, request).value, end)
  {
    RequestedSize(content, request, size);
    var offset := OffsetAsked(request);
    if offset < |Encode(content)| { TooSmallIffNextDoesNotFit(content, offset, size); }
    if WindowAt(content, offset, size).Ok? { CutIsLongest(content, offset, size); }
  }

  lemma {:induction false} TextBetweenMeaning(content: string, i: nat, j: nat)
    requires i <= j <= |Encode(content)|
    requires IsBoundary(Encode(content), i) && IsBoundary(Encode(content), j)
    ensures IndexAt(content, i) <= IndexAt(content, j)
    ensures TextBetween(content, i, j) == DropBom(content[IndexAt(content, i)..IndexAt(content, j)])
  {
    WindowText(content, i, j);
  }

  // ---------------------------------------------------------------------------
  // Following nextOffsetBytes: the spans
  // ---------------------------------------------------------------------------

  datatype Span = Span(from: nat, to: nat)

  /** The spans read from `offset` on, the `i`-th one of at most `sizes(i)` bytes. */
  function FollowSpans(bytes: seq<byte>, offset: nat, sizes: nat -> nat, i: nat): Result<seq<Span>>
    requires offset <= |bytes|
    decreases |bytes| - offset
  {
    match NextEnd(bytes, offset, sizes(i))
    case Err(e) => Err(e)
    case Ok(end) =>
      if end >= |bytes| then Ok([Span(offset, end)])
      else match FollowSpans(bytes, end, sizes, i + 1)
        case Err(e) => Err(e)
        case Ok(rest) => Ok([Span(offset, end)] + rest)
  }

  /** Each span starts where the one before it ended, and the last one ends the file. */
  predicate Tiles(bytes: seq<byte>, spans: seq<Span>, from: nat) {
    if spans == [] then from == |bytes|
    else
      && spans[0].from == from <= spans[0].to <= |bytes|
      && IsBoundary(bytes, spans[0].from) && IsBoundary(bytes, spans[0].to)
      && Tiles(bytes, spans[1..], spans[0].to)
  }

  predicate InFile(bytes: seq<byte>, spans: seq<Span>) {
    forall k :: 0 <= k < |spans| ==> spans[k].from <= spans[k].to <= |bytes|
  }

  function Contents(bytes: seq<byte>, spans: seq<Span>): seq<byte>
    requires InFile(bytes, spans)
  {
    if spans == [] then [] else bytes[spans[0].from..spans[0].to] + Contents(bytes, spans[1..])
  }

  /** From every boundary before the end, four bytes reach another one. */
  ghost predicate Dense(bytes: seq<byte>) {
    forall at: nat, size: nat :: at < |bytes| && IsBoundary(bytes, at) && size >= 4 ==> WindowEnd(bytes, at, size) > at
  }

  lemma {:induction false} EncodingIsDense(content: string)
    ensures Dense(Encode(content))
  {
    forall at: nat, size: nat | at < |Encode(content)| && IsBoundary(Encode(content), at) && size >= 4
      ensures WindowEnd(Encode(content), at, size) > at
    {
      NextFits(content, at, size);
    }
  }

  /** Windows of at least four bytes never fail, always advance, and tile the file. */
  lemma {:induction false} SpansTile(bytes: seq<byte>, offset: nat, sizes: nat -> nat, i: nat)
    requires Dense(bytes) && offset <= |bytes| && IsBoundary(bytes, offset)
    requires forall n :: sizes(n) >= 4
    ensures FollowSpans(bytes, offset, sizes, i).Ok?
    ensures Tiles(bytes, FollowSpans(bytes, offset, sizes, i).value, offset)
    ensures offset < |bytes| ==> 1 <= |FollowSpans(bytes, offset, sizes, i).value| <= |bytes| - offset
    decreases |bytes| - offset
  {
    var end := WindowEnd(bytes, offset, sizes(i));
    if end < |bytes| {
      SpansTile(bytes, end, sizes, i + 1);
      var rest := FollowSpans(bytes, end, sizes, i + 1).value;
      assert ([Span(offset, end)] + rest)[1..] == rest;
    } else {
      assert [Span(offset, end)][1..] == [];
    }
  }

  lemma {:induction false} TiledContents(bytes: seq<byte>, spans: seq<Span>, from: nat)
    requires from <= |bytes| && Tiles(bytes, spans, from)
    ensures InFile(bytes, spans) && Contents(bytes, spans) == bytes[from..]
    decreases spans
  {
    if spans != [] {
      TiledContents(bytes, spans[1..], spans[0].to);
      assert forall k :: 0 < k < |spans| ==> spans[k] == spans[1..][k - 1];
      assert bytes[from..] == bytes[from..spans[0].to] + bytes[spans[0].to..];
    }
  }

  // ---------------------------------------------------------------------------
  // Following nextOffsetBytes: the windows
  // ---------------------------------------------------------------------------

  /** All windows from `offset` on: each next one is read at the last one's `nextOffsetBytes`. */
  function Follow(content: string, offset: nat, sizes: nat -> nat, i: nat): Result<seq<Window>>
    requires offset <= |Encode(content)|
    decreases |Encode(content)| - offset
  {
    match WindowAt(content, offset, sizes(i))
    case Err(e) => Err(e)
    case Ok(w) =>
      match w.nextOffsetBytes
      case None => Ok([w])
      case Some(next) =>
        match Follow(content, next, sizes, i + 1)
        case Err(e) => Err(e)
        case Ok(rest) => Ok([w] + rest)
  }

  predicate BoundedSpan(bytes: seq<byte>, span: Span) {
    span.from <= span.to <= |bytes| && IsBoundary(bytes, span.from) && IsBoundary(bytes, span.to)
  }

  predicate BoundedSpans(bytes: seq<byte>, spans: seq<Span>) {
    forall k :: 0 <= k < |spans| ==> BoundedSpan(bytes, spans[k])
  }

  function WindowsOf(content: string, spans: seq<Span>): (ws: seq<Window>)
    requires BoundedSpans(Encode(content), spans)
    ensures |ws| == |spans|
  {
    seq(|spans|, k requires 0 <= k < |spans| => MakeWindow(content, spans[k].from, spans[k].to))
  }

  lemma {:induction false} TilesBounded(bytes: seq<byte>, spans: seq<Span>, from: nat)
    requires Tiles(bytes, spans, from)
    ensures BoundedSpans(bytes, spans)
    decreases spans
  {
    if spans != [] {
      TilesBounded(bytes, spans[1..], spans[0].to);
      assert forall k :: 0 < k < |spans| ==> spans[k] == spans[1..][k - 1];
    }
  }

  lemma {:induction false} ConsWindows(content: string, span: Span, rest: seq<Span>)
    requires BoundedSpans(Encode(content), rest) && BoundedSpan(Encode(content), span)
    ensures BoundedSpans(Encode(content), [span] + rest)
    ensures WindowsOf(content, [span] + rest) == [MakeWindow(content, span.from, span.to)] + WindowsOf(content, rest)
  {
  }

  lemma {:induction false} FollowOne(content: string, offset: nat, sizes: nat -> nat, i: nat, end: nat)
    requires offset <= |Encode(content)| && NextEnd(Encode(content), offset, sizes(i)) == Ok(end)
    ensures end == |Encode(content)| ==> Follow(content, offset, sizes, i) == Ok([MakeWindow(content, offset, end)])
    ensures end < |Encode(content)| && Follow(content, end, sizes, i + 1).Ok? ==>
              Follow(content, offset, sizes, i)
              == Ok([MakeWindow(content, offset, end)] + Follow(content, end, sizes, i + 1).value)
  {
  }

  /** Following `nextOffsetBytes` reads one window for each span. */
  lemma {:induction false} FollowReads(content: string, offset: nat, sizes: nat -> nat, i: nat, spans: seq<Span>)
    requires offset <= |Encode(content)| && FollowSpans(Encode(content), offset, sizes, i) == Ok(spans)
    requires BoundedSpans(Encode(content), spans)
    ensures Follow(content, offset, sizes, i) == Ok(WindowsOf(content, spans))
    decreases |Encode(content)| - offset
  {
    var end, rest := NextEnd(Encode(content), offset, sizes(i)).value, spans[1..];
    FollowOne(content, offset, sizes, i, end);
    assert spans == [Span(offset, end)] + rest && BoundedSpan(Encode(content), spans[0]);
    ConsWindows(content, spans[0], rest);
    if end < |Encode(content)| {
      FollowReads(content, end, sizes, i + 1, rest);
    } else {
      var w := MakeWindow(content, offset, end);
      assert rest == [] && WindowsOf(content, rest) == [] && [w] + [] == [w];
    }
  }

  lemma {:induction false} FollowReadsSpans(content: string, offset: nat, sizes: nat -> nat, i: nat)
    requires offset <= |Encode(content)| && IsBoundary(Encode(content), offset)
    requires forall n :: sizes(n) >= 4
    ensures FollowSpans(Encode(content), offset, sizes, i).Ok?
    ensures Tiles(Encode(content), FollowSpans(Encode(content), offset, sizes, i).value, offset)
    ensures BoundedSpans(Encode(content), FollowSpans(Encode(content), offset, sizes, i).value)
    ensures Follow(content, offset, sizes, i)
            == Ok(WindowsOf(content, FollowSpans(Encode(content), offset, sizes, i).value))
  {
    EncodingIsDense(content);
    SpansTile(Encode(content), offset, sizes, i);
    var spans := FollowSpans(Encode(content), offset, sizes, i).value;
    TilesBounded(Encode(content), spans, offset);
    FollowReads(content, offset, sizes, i, spans);
  }

  /** Reading a file from 0 in windows of at least four bytes returns every byte once, in order, and ends. */
  lemma {:induction false} WholeFile(content: string, sizes: nat -> nat)
    requires forall n :: sizes(n) >= 4
    ensures exists spans ::
              && InFile(Encode(content), spans) && Contents(Encode(content), spans) == Encode(content)
              && BoundedSpans(Encode(content), spans)
              && Follow(content, 0, sizes, 0) == Ok(WindowsOf(content, spans))
              && (content != "" ==> 1 <= |spans| <= |Encode(content)|)
  {
    assert content[..0] == "";
    CharacterOffsetIsBoundary(content, 0);
    FollowReadsSpans(content, 0, sizes, 0);
    var spans := FollowSpans(Encode(content), 0, sizes, 0).value;
    TiledContents(Encode(content), spans, 0);
    EncodingIsDense(content);
    SpansTile(Encode(content), 0, sizes, 0);
    assert Encode(content)[0..] == Encode(content);
  }

  // ---------------------------------------------------------------------------
  // The texts of the windows
  // ---------------------------------------------------------------------------

  function Texts(windows: seq<Window>): string {
    if windows == [] then "" else windows[0].content + Texts(windows[1..])
  }

  /** The span begins at a character that is a byte order mark. */
  predicate StartsAtBom(content: string, span: Span)
    requires span.from <= |Encode(content)|
  {
    IndexAt(content, span.from) < |content| && content[IndexAt(content, span.from)] == BOM
  }

  predicate NoneStartsAtBom(content: string, spans: seq<Span>)
    requires InFile(Encode(content), spans)
  {
    forall k :: 0 <= k < |spans| ==> !StartsAtBom(content, spans[k])
  }

  /** One window: its text is its characters unless they begin with a mark, which it drops. */
  lemma {:induction false} OneText(content: string, span: Span)
    requires span.from <= span.to <= |Encode(content)|
    requires IsBoundary(Encode(content), span.from) && IsBoundary(Encode(content), span.to)
    requires span.from < span.to || span.from == |Encode(content)|
    ensures var a, b := IndexAt(content, span.from), IndexAt(content, span.to);
            && a <= b && |TextBetween(content, span.from, span.to)| <= b - a
            && (TextBetween(content, span.from, span.to) == content[a..b] <==> !StartsAtBom(content, span))
  {
    TextBetweenMeaning(content, span.from, span.to);
    if span.from < span.to {
      IndicesGrow(content, span.from, span.to);
    }
  }

  /** Spans that tile and advance: their texts are the file from `from` on iff none starts at a mark. */
  lemma {:induction false} TiledTexts(content: string, spans: seq<Span>, from: nat)
    requires from <= |Encode(content)| && Tiles(Encode(content), spans, from)
    requires forall k :: 0 <= k < |spans| ==> spans[k].from < spans[k].to || spans[k].from == |Encode(content)|
    ensures BoundedSpans(Encode(content), spans) && InFile(Encode(content), spans)
    ensures |Texts(WindowsOf(content, spans))| <= |content| - IndexAt(content, from)
    ensures Texts(WindowsOf(content, spans)) == content[IndexAt(content, from)..] <==> NoneStartsAtBom(content, spans)
    decreases spans
  {
    TilesBounded(Encode(content), spans, from);
    if spans == [] {
      assert WindowsOf(content, spans) == [] && content[|content|..] == "";
    } else {
      var span, rest := spans[0], spans[1..];
      assert spans == [span] + rest && BoundedSpan(Encode(content), spans[0]);
      TiledTexts(content, rest, span.to);
      ConsWindows(content, span, rest);
      OneText(content, span);
      TextsCons(MakeWindow(content, span.from, span.to), WindowsOf(content, rest));
      var a, b := IndexAt(content, from), IndexAt(content, span.to);
      SameTexts(content, TextBetween(content, span.from, span.to), Texts(WindowsOf(content, rest)), a, b);
      ConsNone(content, span, rest);
    }
  }

  lemma {:induction false} TextsCons(w: Window, rest: seq<Window>)
    ensures Texts([w] + rest) == w.content + Texts(rest)
  {
    assert ([w] + rest)[1..] == rest;
  }

  lemma {:induction false} SameTexts(content: string, text: string, tail: string, a: nat, b: nat)
    requires a <= b <= |content| && |text| <= b - a && |tail| <= |content| - b
    ensures |text + tail| <= |content| - a
    ensures text + tail == content[a..] <==> text == content[a..b] && tail == content[b..]
  {
    assert content[a..] == content[a..b] + content[b..];
    SameSplit(text, tail, content[a..b], content[b..]);
  }

  lemma {:induction false} ConsNone(content: string, span: Span, rest: seq<Span>)
    requires InFile(Encode(content), rest) && span.from <= span.to <= |Encode(content)|
    ensures InFile(Encode(content), [span] + rest)
    ensures NoneStartsAtBom(content, [span] + rest) <==> !StartsAtBom(content, span) && NoneStartsAtBom(content, rest)
  {
    var all := [span] + rest;
    assert all[0] == span && forall k :: 0 <= k < |rest| ==> rest[k] == all[k + 1];
  }

  lemma {:induction false} SpansAdvance(bytes: seq<byte>, offset: nat, sizes: nat -> nat, i: nat)
    requires offset <= |bytes| && FollowSpans(bytes, offset, sizes, i).Ok?
    ensures forall k :: 0 <= k < |FollowSpans(bytes, offset, sizes, i).value| ==>
              var span := FollowSpans(bytes, offset, sizes, i).value[k];
              span.from < span.to || span.from == |bytes|
    decreases |bytes| - offset
  {
    var end := NextEnd(bytes, offset, sizes(i)).value;
    if end < |bytes| {
      SpansAdvance(bytes, end, sizes, i + 1);
    }
  }

  /** Reading a file from 0 returns its text exactly when no window begins at a byte order mark. */
  lemma {:induction false} WholeText(content: string, sizes: nat -> nat)
    requires forall n :: sizes(n) >= 4
    ensures Follow(content, 0, sizes, 0).Ok? && FollowSpans(Encode(content), 0, sizes, 0).Ok?
    ensures InFile(Encode(content), FollowSpans(Encode(content), 0, sizes, 0).value)
    ensures Texts(Follow(content, 0, sizes, 0).value) == content
            <==> NoneStartsAtBom(content, FollowSpans(Encode(content), 0, sizes, 0).value)
  {
    assert content[..0] == "";
    CharacterOffsetIsBoundary(content, 0);
    FollowReadsSpans(content, 0, sizes, 0);
    SpansAdvance(Encode(content), 0, sizes, 0);
    TiledTexts(content, FollowSpans(Encode(content), 0, sizes, 0).value, 0);
    assert IndexAt(content, 0) == 0 && content[0..] == content;
  }

  /** A file whose second window begins at a byte order mark: the texts of its windows lack the mark. */
  lemma {:induction false} MarkAtWindowStart(head: string, tail: string, sizes: nat -> nat)
    requires sizes(0) == |Encode(head)| && forall n :: sizes(n) >= 4
    ensures var content := head + ([BOM] + tail);
            Follow(content, 0, sizes, 0).Ok? && Texts(Follow(content, 0, sizes, 0).value) != content
  {
    var content := head + ([BOM] + tail);
    var n := |Encode(head)|;
    EncodeConcat(head, [BOM] + tail);
    assert content[..|head|] == head && content[|head|] == BOM;
    assert |Encode([BOM] + tail)| > 0;
    CharacterOffsetIsBoundary(content, |head|);
    WholeText(content, sizes);
    var spans := FollowSpans(Encode(content), 0, sizes, 0).value;
    assert NextEnd(Encode(content), 0, n) == Ok(n);
    SecondSpan(Encode(content), n, sizes);
    assert StartsAtBom(content, spans[1]);
  }

  /** Such as four letters and a mark, read four bytes at a time. */
  lemma {:induction false} MarkIsDropped()
    ensures var content := "abcd" + ([BOM] + "");
            Follow(content, 0, _ => 4, 0).Ok? && Texts(Follow(content, 0, _ => 4, 0).value) != content
  {
    AsciiLength("abcd");
    MarkAtWindowStart("abcd", "", _ => 4);
  }

  lemma {:induction false} AsciiLength(s: string)
    requires forall i :: 0 <= i < |s| ==> s[i] < '\U{0080}'
    ensures |Encode(s)| == |s|
  {
    if s != "" {
      AsciiLength(s[1..]);
    }
  }

  lemma {:induction false} SecondSpan(bytes: seq<byte>, n: nat, sizes: nat -> nat)
    requires n < |bytes| && NextEnd(bytes, 0, sizes(0)) == Ok(n) && FollowSpans(bytes, 0, sizes, 0).Ok?
    ensures |FollowSpans(bytes, 0, sizes, 0).value| > 1 && FollowSpans(bytes, 0, sizes, 0).value[1].from == n
  {
    var rest := FollowSpans(bytes, n, sizes, 1);
    assert rest.Ok? && |rest.value| > 0 && rest.value[0].from == n;
  }

  /** Two concatenations whose parts are no longer than their counterparts are equal only part by part. */
  lemma {:induction false} SameSplit(a: string, b: string, x: string, y: string)
    requires |a| <= |x| && |b| <= |y|
    ensures a + b == x + y <==> a == x && b == y
  {
    if a + b == x + y {
      assert |a + b| == |x + y|;
      assert a == (a + b)[..|a|] == (x + y)[..|x|] == x;
      assert b == (a + b)[|a|..] == (x + y)[|x|..] == y;
    }
  }

  // ---------------------------------------------------------------------------
  // The bridge's truncation
  // ---------------------------------------------------------------------------

  /** The longest prefix of whole characters that fits in `maxBytes`. */
  method TruncateUtf8(value: string, maxBytes: nat) returns (out: string)
    ensures out <= value
    ensures |Encode(out)| <= maxBytes
    ensures |out| < |value| ==> |Encode(value[..|out| + 1])| > maxBytes
  {
    var bytes := 0;
    out := "";
    for i := 0 to |value|
      invariant out == value[..i] && bytes == OffsetOf(value, i) <= maxBytes
    {
      var charBytes := |EncodeChar(value[i])|;
      OffsetStep(value, i);
      if bytes + charBytes > maxBytes {
        break;
      }
      out := out + [value[i]];
      bytes := bytes + charBytes;
      assert out == value[..i + 1];
    }
  }

  ghost predicate IsTruncation(out: string, value: string, maxBytes: nat) {
    out <= value && |Encode(out)| <= maxBytes && (|out| < |value| ==> |Encode(value[..|out| + 1])| > maxBytes)
  }

  lemma {:induction false} TruncationIsFirstWindow(content: string, size: nat, out: string)
    requires IsTruncation(out, content, size)
    ensures WindowAt(content, 0, size).Err? <==> content != "" && out == ""
    ensures WindowAt(content, 0, size).Ok? ==> WindowAt(content, 0, size).value.content == DropBom(out)
  {
    assert content[..0] == "";
    CharacterOffsetIsBoundary(content, 0);
    assert out == content[..|out|] && OffsetOf(content, 0) == 0;
    if content != "" {
      assert IndexAt(content, 0) == 0;
      TooSmallIffNextDoesNotFit(content, 0, size);
      OffsetStep(content, 0);
      if |out| > 0 {
        OffsetsGrow(content, 1, |out|);
      }
    }
    if WindowAt(content, 0, size).Ok? {
      var end := NextEnd(Encode(content), 0, size).value;
      TextBetweenMeaning(content, 0, end);
      LongestPrefix(content, size, out, end);
      assert content[0..|out|] == out;
    }
  }

  /** The window from 0 ends where the truncation does. */
  lemma {:induction false} LongestPrefix(content: string, size: nat, out: string, end: nat)
    requires IsTruncation(out, content, size) && NextEnd(Encode(content), 0, size) == Ok(end)
    ensures IndexAt(content, end) == |out|
  {
    var k := IndexAt(content, end);
    assert out == content[..|out|];
    CharacterOffsetIsBoundary(content, |out|);
    assert OffsetOf(content, |out|) <= end;
    BoundaryIsCharacterOffset(content, end);
    if k < |out| {
      OffsetsGrow(content, k, |out|);
    }
    if |out| < k {
      OffsetsGrow(content, |out| + 1, k);
    }
  }

  /** Bridge and reader cut at the same character; the texts differ exactly by a leading byte order mark. */
  lemma {:induction false} FirstWindowAgrees(content: string, size: nat, out: string)
    requires IsTruncation(out, content, size) && WindowAt(content, 0, size).Ok?
    ensures WindowAt(content, 0, size).value.content == out <==> (content == "" || content[0] != BOM)
  {
    TruncationIsFirstWindow(content, size, out);
  }
}
