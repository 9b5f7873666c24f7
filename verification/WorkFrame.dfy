/** WORK frames: how the coordinator fills one in, how a worker checks it, how it is rewritten for
    the next hop, and which replies the coordinator's reader accepts (ds4_distributed.c). */
module WorkFrame {
  import opened Options
  import opened Bytes
  import opened RouteBlob
  import opened RoutePlan
  import S = RouteSearch
  import H = TokenHash

  const WORK_BYTES: nat := 80

  type Flags = bv32
  const F_INPUT_HC: Flags := 1
  const F_OUTPUT: Flags := 2
  const F_RESET: Flags := 4
  const F_ACK_ONLY: Flags := 8
  const F_VALID_MASK: Flags := 15

  predicate Has(flags: Flags, f: Flags) {
    flags & f != 0
  }

  /** ds4_dist_work_fixed, without the session and request identifiers. */
  datatype Work = Work(
    modelId: Word32, prefixHash: Word64, resultHash: Word64, pos0: Word32, nTokens: Word32,
    layerStart: Word32, layerEnd: Word32, flags: Flags, tokenBytes: Word32, inputBytes: Word32,
    inputBits: Word32, routeCount: Word32, routeIndex: Word32, routeBytes: Word32)

  /** A WORK frame: the fixed part and the bytes after it. */
  datatype Frame = Frame(work: Work, body: seq<Byte>)

  /** What all nodes running one model agree on. */
  datatype Model = Model(hasher: H.Hasher, nLayers: Word32, vocab: nat, hcValues: nat)

  datatype ResultKind = Ack | HiddenState | Logits

  // ----- Activation sizes ----------------------------------------------------------------

  function BitsOrDefault(bits: Word32): Word32 {
    if bits == 0 then 32 else bits
  }

  /** How many floats the hidden state of n tokens has. */
  function Values(m: Model, n: nat): nat {
    n * m.hcValues
  }

  /** dist_activation_wire_bytes. */
  function WireBytes(bits: Word32, values: nat): Option<Word32> {
    var perValue := match BitsOrDefault(bits) { case 32 => 4 case 16 => 2 case 8 => 1 case _ => 0 };
    if perValue == 0 || values * perValue > WORD_MAX then None else Some(values * perValue)
  }

  // ----- Tokens on the wire --------------------------------------------------------------

  function EncodeTokens(tokens: seq<Word32>): (b: seq<Byte>)
    ensures |b| == 4 * |tokens|
  {
    if tokens == [] then [] else BigEndian(tokens[0]) + EncodeTokens(tokens[1..])
  }

  function TokensAt(b: seq<Byte>, n: nat): (tokens: seq<Word32>)
    requires 4 * n <= |b|
    ensures |tokens| == n
  {
    seq(n, i requires 0 <= i < n => WordAt(b, 4 * i))
  }

  lemma SameWord(b: seq<Byte>, at: nat, c: seq<Byte>, ct: nat)
    requires at + 4 <= |b| && ct + 4 <= |c| && b[at..][..4] == c[ct..][..4]
    ensures WordAt(b, at) == WordAt(c, ct)
  {
    assert forall k :: 0 <= k < 4 ==> b[at..][..4][k] == c[ct..][..4][k];
  }

  lemma {:induction false} TokenEncoded(tokens: seq<Word32>, rest: seq<Byte>, i: nat)
    requires i < |tokens|
    ensures WordAt(EncodeTokens(tokens) + rest, 4 * i) == tokens[i]
  {
    var b := EncodeTokens(tokens) + rest;
    var tail := EncodeTokens(tokens[1..]) + rest;
    assert b == BigEndian(tokens[0]) + tail;
    if i == 0 {
      assert b[0..4] == BigEndian(tokens[0]);
      WordRoundTrip(tokens[0], b, 0);
    } else {
      TokenEncoded(tokens[1..], rest, i - 1);
      var at := 4 * (i - 1);
      assert b[4..] == tail && b[4..][at..] == tail[at..] && b[4 * i..] == tail[at..];
      assert b[4 * i..][..4] == tail[at..][..4];
      SameWord(b, 4 * i, tail, at);
      assert WordAt(b, 4 * i) == WordAt(tail, at);
    }
  }

  lemma TokensRoundTrip(tokens: seq<Word32>, rest: seq<Byte>)
    ensures TokensAt(EncodeTokens(tokens) + rest, |tokens|) == tokens
  {
    forall i | 0 <= i < |tokens|
      ensures WordAt(EncodeTokens(tokens) + rest, 4 * i) == tokens[i]
    {
      TokenEncoded(tokens, rest, i);
    }
  }

  // ----- Frames on their way -------------------------------------------------------------

  /** dist_send_work_frame, given the encoded activations. */
  function Send(work: Work, tokens: seq<Word32>, hidden: seq<Byte>, route: seq<Byte>): Option<Frame> {
    if work.nTokens == 0 || |tokens| != work.nTokens || work.tokenBytes != work.nTokens * 4
       || |hidden| != work.inputBytes || |route| != work.routeBytes
       || WORK_BYTES + work.tokenBytes + work.inputBytes + work.routeBytes > WORD_MAX then None
    else Some(Frame(work, EncodeTokens(tokens) + hidden + route))
  }

  /** One span of tokens that the coordinator wants evaluated. */
  datatype Span = Span(tokens: seq<Word32>, pos0: Word32, prefixHash: Word64, reset: bool, ackOnly: bool, bits: Word32)

  /** The span fits the model, the coordinator's context and a frame. */
  predicate SpanOk(m: Model, c: Local, es: seq<RouteEntry>, s: Span)
    requires Texts(es)
  {
    && 0 < |s.tokens| && s.pos0 + |s.tokens| <= c.ctxSize
    && (forall i :: 0 <= i < |s.tokens| ==> TokenOk(m, s.tokens[i]))
    && WireBytes(32, Values(m, |s.tokens|)).Some?
    && WireBytes(s.bits, Values(m, |s.tokens|)).Some?
    && |es| <= WORD_MAX
    && WORK_BYTES + |s.tokens| * 4 + WireBytes(s.bits, Values(m, |s.tokens|)).value + |Blob(es)| <= WORD_MAX
  }

  function OutputBit(flags: Flags, output: bool): Flags {
    if output then flags | F_OUTPUT else flags & !F_OUTPUT
  }

  /** dist_coordinator_send_remote_work_on_fd. */
  function FirstWork(m: Model, c: Local, es: seq<RouteEntry>, s: Span): Work
    requires es != [] && Texts(es) && SpanOk(m, c, es, s)
  {
    var flags := F_INPUT_HC | (if s.reset then F_RESET else 0) | (if s.ackOnly then F_ACK_ONLY else 0)
                 | (if OutputFlag(es[0]) then F_OUTPUT else 0);
    Work(c.modelId, s.prefixHash, m.hasher.Span(s.prefixHash, s.tokens), s.pos0, |s.tokens|,
         es[0].layerStart, es[0].layerEnd, flags, |s.tokens| * 4,
         WireBytes(s.bits, Values(m, |s.tokens|)).value, s.bits, |es|, 0, |Blob(es)|)
  }

  /** dist_forward_work_to_next, where the hidden state has values floats. */
  function ForwardWork(work: Work, next: RouteEntry, values: nat): Option<Work> {
    var bits := BitsOrDefault(work.inputBits);
    match WireBytes(bits, values)
    case None => None
    case Some(inputBytes) =>
      if work.routeIndex == WORD_MAX then None
      else Some(work.(layerStart := next.layerStart, layerEnd := next.layerEnd, routeIndex := work.routeIndex + 1,
                      flags := OutputBit(work.flags | F_INPUT_HC, OutputFlag(next)),
                      inputBits := bits, inputBytes := inputBytes))
  }

  // ----- A worker's checks ---------------------------------------------------------------

  /** What a worker knows about itself. */
  datatype Node = Node(modelId: Word32, layerStart: Word32, layerEnd: Word32, hasOutput: bool, ctxSize: Word32)

  predicate SizesOk(f: Frame) {
    && f.work.tokenBytes == f.work.nTokens * 4
    && f.work.tokenBytes + f.work.inputBytes + f.work.routeBytes == |f.body|
  }

  function Tokens(f: Frame): (tokens: seq<Word32>)
    requires SizesOk(f)
    ensures |tokens| == f.work.nTokens
  {
    TokensAt(f.body, f.work.nTokens)
  }

  function Route(f: Frame): seq<Byte>
    requires SizesOk(f)
  {
    f.body[f.work.tokenBytes + f.work.inputBytes..]
  }

  /** No flag that this version does not know. */
  predicate FlagsOk(flags: Flags) {
    flags & !F_VALID_MASK == 0
  }

  /** The frame is addressed to this worker. */
  predicate ForThisNode(m: Model, w: Node, k: Work) {
    && k.routeIndex < k.routeCount
    && k.modelId == w.modelId && k.layerStart == w.layerStart && k.layerEnd == w.layerEnd
    && FlagsOk(k.flags)
    && k.nTokens != 0 && k.pos0 <= w.ctxSize && k.nTokens <= w.ctxSize - k.pos0
    && (Has(k.flags, F_INPUT_HC) <==> k.layerStart != 0)
    && (Has(k.flags, F_OUTPUT) ==> w.hasOutput && k.layerEnd + 1 == m.nLayers)
  }

  /** The tokens are known, hash to the announced result, and come with a hidden state that fits. */
  predicate ContentOk(m: Model, f: Frame)
    requires SizesOk(f)
  {
    var k, tokens := f.work, Tokens(f);
    && (forall i :: 0 <= i < |tokens| ==> TokenOk(m, tokens[i]))
    && m.hasher.Span(k.prefixHash, tokens) == k.resultHash
    && Values(m, |tokens|) * 4 <= WORD_MAX
    && (if Has(k.flags, F_INPUT_HC) then WireBytes(k.inputBits, Values(m, |tokens|)) == Some(k.inputBytes)
        else k.inputBytes == 0)
  }

  predicate TokenOk(m: Model, token: Word32) {
    token < 0x8000_0000 && token < m.vocab
  }

  /** The route is es, and this frame is at one of its hops. */
  ghost predicate OnRoute(m: Model, f: Frame, es: seq<RouteEntry>)
    requires SizesOk(f)
  {
    var k := f.work;
    && IsRoute(Route(f), k.routeCount, m.nLayers, es)
    && k.routeIndex < |es|
    && es[k.routeIndex].layerStart == k.layerStart && es[k.routeIndex].layerEnd == k.layerEnd
    && OutputFlag(es[k.routeIndex]) == Has(k.flags, F_OUTPUT)
    && (k.routeIndex + 1 < |es| ==> !Has(k.flags, F_OUTPUT))
  }

  ghost predicate Admissible(m: Model, w: Node, f: Frame) {
    && SizesOk(f) && ForThisNode(m, w, f.work) && ContentOk(m, f)
    && exists es :: OnRoute(m, f, es)
  }

  /** What the worker sends once it has evaluated the frame: on to next, or back upstream. */
  datatype Outcome =
    | Rejected
    | Accepted(next: Option<RouteEntry>, kind: ResultKind, bytes: nat)

  function OutcomeOf(m: Model, k: Work, es: seq<RouteEntry>): Outcome
    requires k.routeIndex < |es|
  {
    if k.routeIndex + 1 < |es| then
      Accepted(Some(es[k.routeIndex + 1]), HiddenState, Values(m, k.nTokens) * 4)
    else if Has(k.flags, F_ACK_ONLY) then Accepted(None, Ack, 0)
    else if Has(k.flags, F_OUTPUT) then Accepted(None, Logits, LogitsBytes(m))
    else Accepted(None, HiddenState, Values(m, k.nTokens) * 4)
  }

  /** The size of a row of logits in a uint32_t. */
  function LogitsBytes(m: Model): nat {
    m.vocab * 4 % TWO_32
  }

  /** Its checks of the fixed part against the worker itself. */
  method CheckNode(m: Model, w: Node, work: Work) returns (ok: bool)
    ensures ok <==> ForThisNode(m, w, work)
  {
    hide FlagsOk, Has;
    if work.routeCount == 0 || work.routeIndex >= work.routeCount || work.modelId != w.modelId {
      return false;
    }
    if work.layerStart != w.layerStart || work.layerEnd != w.layerEnd {
      return false;
    }
    if !FlagsOk(work.flags) || work.nTokens == 0 {
      return false;
    }
    if work.pos0 > w.ctxSize || work.nTokens > w.ctxSize - work.pos0 {
      return false;
    }
    var outputLogits := Has(work.flags, F_OUTPUT);
    var inputHc := Has(work.flags, F_INPUT_HC);
    if (inputHc && work.layerStart == 0) || (!inputHc && work.layerStart != 0) {
      return false;
    }
    if outputLogits && (!w.hasOutput || work.layerEnd + 1 != m.nLayers) {
      return false;
    }
    return true;
  }

  /** Its checks of the tokens and of the hidden state's size. */
  method CheckContent(m: Model, f: Frame) returns (ok: bool)
    requires SizesOk(f)
    ensures ok <==> ContentOk(m, f)
  {
    hide TokensAt, WireBytes, H.Hasher.Span, Values;
    var work := f.work;
    var tokens := Tokens(f);
    for i := 0 to |tokens|
      invariant forall j :: 0 <= j < i ==> TokenOk(m, tokens[j])
    {
      if tokens[i] >= 0x8000_0000 || tokens[i] >= m.vocab {
        return false;
      }
    }
    var hash := m.hasher.ComputeSpan(work.prefixHash, tokens);
    if hash != work.resultHash {
      return false;
    }
    var values := Values(m, work.nTokens);
    if values * 4 > WORD_MAX {
      return false;
    }
    if Has(work.flags, F_INPUT_HC) {
      var expected := WireBytes(work.inputBits, values);
      if expected.None? || work.inputBytes != expected.value {
        return false;
      }
    } else if work.inputBytes != 0 {
      return false;
    }
    return true;
  }

  /** The checks of dist_worker_process_work_payload, up to the evaluation: a frame is let through
      exactly when it is admissible, and then the route decides where the result goes. */
  method ProcessWork(m: Model, w: Node, f: Frame) returns (r: Outcome)
    ensures r.Rejected? <==> !Admissible(m, w, f)
    ensures r.Accepted? ==> forall es :: OnRoute(m, f, es) ==> r == OutcomeOf(m, f.work, es)
  {
    hide IsRoute, EntryAt, ReturnsTo, Tokens, WireBytes, LogitsBytes, EncodeAll, Values, ForThisNode, ContentOk;
    var work := f.work;
    if work.tokenBytes != work.nTokens * 4
       || work.tokenBytes + work.inputBytes + work.routeBytes != |f.body| {
      return Rejected;
    }
    var forThis := CheckNode(m, w, work);
    if !forThis {
      return Rejected;
    }
    var content := CheckContent(m, f);
    if !content {
      return Rejected;
    }
    var outputLogits := Has(work.flags, F_OUTPUT);
    var ackOnly := Has(work.flags, F_ACK_ONLY);
    var values := Values(m, work.nTokens);
    AddressedInside(m, w, work);
    var route := Route(f);
    var valid := ValidateBlob(route, work.routeCount, m.nLayers);
    if !valid {
      return Rejected;
    }
    ghost var es :| IsRoute(route, work.routeCount, m.nLayers, es);
    OnlyRoute(m, f, es);
    var current := GetEntry(route, work.routeCount, work.routeIndex);
    EntryFound(route, work.routeCount, m.nLayers, es, work.routeIndex, current);
    if current.value.layerStart != work.layerStart || current.value.layerEnd != work.layerEnd {
      return Rejected;
    }
    if OutputFlag(current.value) != outputLogits {
      return Rejected;
    }
    var hasNext := work.routeIndex + 1 < work.routeCount;
    if hasNext {
      if outputLogits {
        return Rejected;
      }
      var next := GetEntry(route, work.routeCount, work.routeIndex + 1);
      EntryFound(route, work.routeCount, m.nLayers, es, work.routeIndex + 1, next);
      assert OnRoute(m, f, es);
      return Accepted(next, HiddenState, values * 4);
    }
    var target := GetReturnTarget(route, work.routeCount);
    TargetFound(route, work.routeCount, m.nLayers, es, target);
    assert OnRoute(m, f, es);
    if ackOnly {
      return Accepted(None, Ack, 0);
    }
    if outputLogits {
      return Accepted(None, Logits, LogitsBytes(m));
    }
    return Accepted(None, HiddenState, values * 4);
  }

  lemma AddressedInside(m: Model, w: Node, k: Work)
    requires ForThisNode(m, w, k)
    ensures k.routeIndex < k.routeCount
  {
  }

  lemma OnlyRoute(m: Model, f: Frame, es: seq<RouteEntry>)
    requires SizesOk(f) && IsRoute(Route(f), f.work.routeCount, m.nLayers, es)
    ensures |es| == f.work.routeCount
    ensures forall fs :: OnRoute(m, f, fs) ==> fs == es
  {
    hide EncodeAll, EncodeEntry, EncodeReturn;
    forall fs | OnRoute(m, f, fs)
      ensures fs == es
    {
      BlobIsInjective(fs, es);
    }
  }

  lemma EntryFound(b: seq<Byte>, count: nat, nLayers: Word32, es: seq<RouteEntry>, at: nat, out: Option<RouteEntry>)
    requires IsRoute(b, count, nLayers, es) && at < count
    requires out.Some? ==> EntryAt(b, at, out.value)
    requires out.None? ==> forall e :: !EntryAt(b, at, e)
    ensures out == Some(es[at])
  {
    AcceptedEntries(b, count, nLayers, es, at, es[at]);
    if out.Some? {
      AcceptedEntries(b, count, nLayers, es, at, out.value);
    }
  }

  lemma TargetFound(b: seq<Byte>, count: nat, nLayers: Word32, es: seq<RouteEntry>, out: Option<ReturnTarget>)
    requires IsRoute(b, count, nLayers, es)
    requires out.Some? ==> ReturnsTo(b, count, out.value)
    requires out.None? ==> forall t :: !ReturnsTo(b, count, t)
    ensures out == Some(UPSTREAM)
  {
    AcceptedTarget(b, count, nLayers, es, UPSTREAM);
    if out.Some? {
      AcceptedTarget(b, count, nLayers, es, out.value);
    }
  }

  // ----- Every hop lets the frame through ------------------------------------------------

  /** The fixed part that reaches hop k when every earlier worker forwards it. */
  function HopWork(m: Model, c: Local, es: seq<RouteEntry>, s: Span, k: nat): Option<Work>
    requires es != [] && Texts(es) && SpanOk(m, c, es, s) && k < |es|
  {
    if k == 0 then Some(FirstWork(m, c, es, s))
    else
      match HopWork(m, c, es, s, k - 1)
      case None => None
      case Some(work) => ForwardWork(work, es[k], Values(m, work.nTokens))
  }

  /** The worker that registered as w. */
  function NodeOf(w: S.Worker): Node {
    Node(w.modelId, w.layerStart, w.layerEnd, w.hasOutput, w.ctxSize)
  }

  /** What the fixed part at hop k must say. */
  ghost predicate HopIs(m: Model, c: Local, es: seq<RouteEntry>, s: Span, k: nat, work: Work)
    requires Texts(es) && SpanOk(m, c, es, s) && k < |es|
  {
    && work.modelId == c.modelId && work.pos0 == s.pos0
    && work.nTokens == |s.tokens| && work.tokenBytes == 4 * |s.tokens|
    && work.prefixHash == s.prefixHash && work.resultHash == m.hasher.Span(s.prefixHash, s.tokens)
    && work.layerStart == es[k].layerStart && work.layerEnd == es[k].layerEnd
    && work.routeCount == |es| && work.routeIndex == k && work.routeBytes == |Blob(es)|
    && BitsOrDefault(work.inputBits) == BitsOrDefault(s.bits)
    && Some(work.inputBytes) == WireBytes(s.bits, Values(m, |s.tokens|))
    && FlagsAre(work.flags, OutputFlag(es[k]), s.reset, s.ackOnly)
  }

  predicate FlagsAre(flags: Flags, output: bool, reset: bool, ackOnly: bool) {
    && FlagsOk(flags) && Has(flags, F_INPUT_HC)
    && Has(flags, F_OUTPUT) == output && Has(flags, F_RESET) == reset && Has(flags, F_ACK_ONLY) == ackOnly
  }

  lemma ForwardedFlags(flags: Flags, output: bool, reset: bool, ackOnly: bool, next: bool)
    requires FlagsAre(flags, output, reset, ackOnly)
    ensures FlagsAre(OutputBit(flags | F_INPUT_HC, next), next, reset, ackOnly)
  {
  }

  lemma {:induction false} HopShape(m: Model, c: Local, es: seq<RouteEntry>, s: Span, k: nat)
    requires es != [] && Texts(es) && SpanOk(m, c, es, s) && k < |es|
    ensures HopWork(m, c, es, s, k).Some? && HopIs(m, c, es, s, k, HopWork(m, c, es, s, k).value)
  {
    hide EncodeAll, EncodeReturn, SpanOk;
    if k == 0 {
      FirstShape(m, c, es, s);
    } else {
      HopShape(m, c, es, s, k - 1);
      var work := HopWork(m, c, es, s, k - 1).value;
      SpanFits(m, c, es, s);
      ForwardedFlags(work.flags, OutputFlag(es[k - 1]), s.reset, s.ackOnly, OutputFlag(es[k]));
    }
  }

  /** The flags of a frame at every hop: a hidden state comes with it, it asks for logits where the entry of
      the hop has the head, and it resets the session and asks for a bare acknowledgement exactly when the
      span does, whatever it has been through. */
  lemma HopFlags(m: Model, c: Local, es: seq<RouteEntry>, s: Span, k: nat)
    requires es != [] && Texts(es) && SpanOk(m, c, es, s) && k < |es|
    ensures HopWork(m, c, es, s, k).Some?
    ensures var flags := HopWork(m, c, es, s, k).value.flags;
            && (flags & 1 != 0)
            && (flags & 2 != 0 <==> es[k].flags % 2 == 1)
            && (flags & 4 != 0 <==> s.reset)
            && (flags & 8 != 0 <==> s.ackOnly)
  {
    hide EncodeAll, EncodeReturn, SpanOk, HopWork, FlagsOk;
    HopShape(m, c, es, s, k);
  }

  /** A hidden state of n tokens takes four, two or one bytes for each of its floats, and no other width is
      sent; 32 bits is what no width means. */
  lemma WireSizes(m: Model, bits: Word32, n: nat)
    ensures var width := if bits == 0 || bits == 32 then 4 else if bits == 16 then 2 else if bits == 8 then 1 else 0;
            WireBytes(bits, Values(m, n))
            == if width == 0 || n * m.hcValues * width > 0xFFFF_FFFF then None else Some(n * m.hcValues * width)
  {
  }

  /** Where everything stands in the body of a frame: the tokens as words, the hidden state, the route. */
  lemma BodyFormat(work: Work, tokens: seq<Word32>, hidden: seq<Byte>, route: seq<Byte>)
    requires Send(work, tokens, hidden, route).Some?
    ensures var f := Send(work, tokens, hidden, route).value;
            var n := 4 * |tokens|;
            && f.work == work && |f.body| == n + |hidden| + |route|
            && (forall i :: 0 <= i < |tokens| ==> HoldsBig(f.body, 4 * i, tokens[i]))
            && f.body[n..n + |hidden|] == hidden && f.body[n + |hidden|..] == route
  {
    hide HoldsBig, EncodeTokens;
    forall i | 0 <= i < |tokens|
      ensures HoldsBig(EncodeTokens(tokens) + (hidden + route), 4 * i, tokens[i])
    {
      TokenPlace(tokens, [], hidden + route, i);
      assert [] + EncodeTokens(tokens) + (hidden + route) == EncodeTokens(tokens) + (hidden + route);
    }
    assert EncodeTokens(tokens) + hidden + route == EncodeTokens(tokens) + (hidden + route);
  }

  lemma {:induction false} TokenPlace(tokens: seq<Word32>, before: seq<Byte>, rest: seq<Byte>, i: nat)
    requires i < |tokens|
    ensures HoldsBig(before + EncodeTokens(tokens) + rest, |before| + 4 * i, tokens[i])
    decreases i
  {
    hide HoldsBig, BigEndian;
    var b := before + EncodeTokens(tokens) + rest;
    var word, tail := BigEndian(tokens[0]), EncodeTokens(tokens[1..]);
    assert b == before + word + tail + rest;
    if i == 0 {
      assert b[|before|..|before| + 4] == word;
      EncodedHolds(tokens[0], b, |before|);
    } else {
      TokenPlace(tokens[1..], before + word, rest, i - 1);
      assert b == (before + word) + tail + rest;
    }
  }

  /** A frame that a worker lets through is fit for evaluation there, whoever sent it: it is for this model
      and exactly this worker's layers, has the right sizes, only flags and tokens that are known, fits the
      context, carries a hidden state exactly when the layers need one, of the right size, asks for logits
      only where the head is, and announces the hash that its tokens lead to. */
  lemma AdmittedIsFit(m: Model, w: Node, f: Frame)
    requires Admissible(m, w, f)
    ensures var k := f.work;
            && k.modelId == w.modelId && k.layerStart == w.layerStart && k.layerEnd == w.layerEnd
            && 0 < k.nTokens && k.pos0 + k.nTokens <= w.ctxSize
            && k.tokenBytes == 4 * k.nTokens && k.tokenBytes + k.inputBytes + k.routeBytes == |f.body|
            && k.flags & !15 == 0
            && (k.flags & 1 != 0 <==> k.layerStart > 0)
            && (k.flags & 1 == 0 ==> k.inputBytes == 0)
            && (k.flags & 1 != 0 ==> WireBytes(k.inputBits, Values(m, k.nTokens)) == Some(k.inputBytes))
            && (k.flags & 2 != 0 ==> w.hasOutput && k.layerEnd == m.nLayers - 1)
            && k.nTokens * m.hcValues * 4 <= 0xFFFF_FFFF
            && (forall i :: 0 <= i < k.nTokens ==> TokenAt(f, i) < 0x8000_0000 && TokenAt(f, i) < m.vocab)
            && k.resultHash == m.hasher.Span(k.prefixHash, TokensAt(f.body, k.nTokens))
            && k.routeIndex < k.routeCount
            && exists es :: RouteThrough(m, f, es)
  {
    hide IsRoute, WireBytes, H.Hasher.Span;
    forall i | 0 <= i < f.work.nTokens
      ensures TokenAt(f, i) < 0x8000_0000 && TokenAt(f, i) < m.vocab
    {
      assert TokenOk(m, Tokens(f)[i]);
      WordIsHeld(f.body, 4 * i);
    }
    var es :| OnRoute(m, f, es);
    OnlyRoute(m, f, es);
    assert RouteThrough(m, f, es);
  }

  /** The i-th token of a frame, from its bytes. */
  function TokenAt(f: Frame, i: nat): nat
    requires 4 * i + 4 <= |f.body|
  {
    (f.body[4 * i] as nat) * 0x100_0000 + (f.body[4 * i + 1] as nat) * 0x1_0000
    + (f.body[4 * i + 2] as nat) * 0x100 + (f.body[4 * i + 3] as nat)
  }

  /** The frame carries route es, names a hop of it, has that hop's layers, and asks for logits exactly where
      the hop is to give them, which only the last may be. */
  ghost predicate RouteThrough(m: Model, f: Frame, es: seq<RouteEntry>)
    requires SizesOk(f)
  {
    var k := f.work;
    && |es| == k.routeCount && IsRoute(f.body[k.tokenBytes + k.inputBytes..], k.routeCount, m.nLayers, es)
    && k.routeIndex < |es|
    && es[k.routeIndex].layerStart == k.layerStart && es[k.routeIndex].layerEnd == k.layerEnd
    && (k.flags & 2 != 0 <==> es[k.routeIndex].flags % 2 == 1)
    && (k.flags & 2 != 0 ==> k.routeIndex == |es| - 1)
  }

  lemma SpanFits(m: Model, c: Local, es: seq<RouteEntry>, s: Span)
    requires Texts(es) && SpanOk(m, c, es, s)
    ensures |es| <= WORD_MAX && WireBytes(s.bits, Values(m, |s.tokens|)).Some?
  {
  }

  lemma FirstShape(m: Model, c: Local, es: seq<RouteEntry>, s: Span)
    requires es != [] && Texts(es) && SpanOk(m, c, es, s)
    ensures HopIs(m, c, es, s, 0, FirstWork(m, c, es, s))
  {
    hide EncodeAll, EncodeReturn;
  }

  /** The frame that carries work for hop k is admitted by the worker the plan means. */
  lemma HopAdmits(m: Model, c: Local, es: seq<RouteEntry>, s: Span, k: nat, w: S.Worker, work: Work, hidden: seq<Byte>)
    requires c.Valid() && c.nLayers == m.nLayers && Covers(c, c.end + 1, es)
    requires SpanOk(m, c, es, s) && k < |es| && HopIs(m, c, es, s, k, work)
    requires HelloOk(c, w) && es[k] == EntryOf(w) && |hidden| == work.inputBytes
    ensures var f := Send(work, s.tokens, hidden, Blob(es));
            && f.Some? && Admissible(m, NodeOf(w), f.value) && OnRoute(m, f.value, es)
  {
    hide EncodeAll, EncodeReturn, EncodeTokens;
    var f := Frame(work, EncodeTokens(s.tokens) + hidden + Blob(es));
    assert Send(work, s.tokens, hidden, Blob(es)) == Some(f);
    assert f.body == EncodeTokens(s.tokens) + (hidden + Blob(es));
    TokensRoundTrip(s.tokens, hidden + Blob(es));
    assert Tokens(f) == s.tokens && Route(f) == Blob(es);
    assert OnRoute(m, f, es);
    assert ForThisNode(m, NodeOf(w), work) by {
      LaterHopsStartPastZero(c, es, k);
    }
  }

  lemma LaterHopsStartPastZero(c: Local, es: seq<RouteEntry>, k: nat)
    requires c.Valid() && Covers(c, c.end + 1, es) && k < |es|
    ensures es[k].layerStart != 0
  {
    if k > 0 {
      assert es[k].layerStart == es[k - 1].layerEnd + 1;
    }
  }

  /** The frame of span s, carrying hidden at hop k, reaches hop k of route es, worker w there admits
      it, and its result goes on to the next entry, or upstream from the last. */
  ghost predicate AdmittedAt(
    m: Model, c: Local, es: seq<RouteEntry>, s: Span, k: nat, w: S.Worker, hidden: seq<Byte>)
    requires es != [] && Texts(es) && SpanOk(m, c, es, s) && k < |es|
  {
    var work := HopWork(m, c, es, s, k);
    && work.Some?
    && var f := Send(work.value, s.tokens, hidden, Blob(es));
    && f.Some?
    && Admissible(m, NodeOf(w), f.value)
    && OnRoute(m, f.value, es)
    && OutcomeOf(m, work.value, es).next == (if k + 1 < |es| then Some(es[k + 1]) else None)
    && (k + 1 < |es| ==> OutcomeOf(m, work.value, es) == Accepted(Some(es[k + 1]), HiddenState, |s.tokens| * m.hcValues * 4))
  }

  /** Every worker that passed the HELLO checks admits the frame at the hop of its entry. */
  lemma EveryHopAdmits(m: Model, c: Local, es: seq<RouteEntry>, s: Span, k: nat, w: S.Worker, hidden: seq<Byte>)
    requires c.Valid() && c.nLayers == m.nLayers && Covers(c, c.end + 1, es) && SpanOk(m, c, es, s)
    requires k < |es| && HelloOk(c, w) && es[k] == EntryOf(w)
    requires Some(|hidden|) == WireBytes(s.bits, Values(m, |s.tokens|))
    ensures AdmittedAt(m, c, es, s, k, w, hidden)
  {
    hide EncodeAll, EncodeReturn, EncodeTokens, Admissible, OnRoute, SpanOk, Send, HopWork;
    HopShape(m, c, es, s, k);
    HopAdmits(m, c, es, s, k, w, HopWork(m, c, es, s, k).value, hidden);
  }

  /** So for every plan built from HELLO-checked workers and every span that fits, the frame passes
      every check at every hop, at the registered worker the plan means. */
  lemma BuiltPlanIsAdmitted(m: Model, c: Local, sorted: seq<S.Worker>, dupOk: bool, s: Span, k: nat, hidden: seq<Byte>)
    returns (w: S.Worker)
    requires c.Valid() && c.nLayers == m.nLayers && S.Searchable(sorted) && HelloAll(c, sorted)
    requires FreshPlan(c, sorted, dupOk).Built? && k < |FreshPlan(c, sorted, dupOk).entries|
    requires Texts(FreshPlan(c, sorted, dupOk).entries) && SpanOk(m, c, FreshPlan(c, sorted, dupOk).entries, s)
    requires Some(|hidden|) == WireBytes(s.bits, Values(m, |s.tokens|))
    ensures w in sorted && FreshPlan(c, sorted, dupOk).entries[k] == EntryOf(w)
    ensures AdmittedAt(m, c, FreshPlan(c, sorted, dupOk).entries, s, k, w, hidden)
  {
    hide EncodeAll, EncodeReturn, SpanOk, HopWork, AdmittedAt, S.Searchable, HelloOk;
    BuiltPlanCovers(c, sorted, dupOk);
    w := sorted[Path(c, sorted).value[k]];
    EveryHopAdmits(m, c, FreshPlan(c, sorted, dupOk).entries, s, k, w, hidden);
  }

  /** What dist_prefill_result_reader_main accepts as the reply to a chunk of n tokens. */
  predicate ReplyOk(m: Model, n: nat, finalChunk: bool, allowHidden: bool, kind: ResultKind, bytes: nat) {
    match kind
    case Ack => !finalChunk && bytes == 0
    case Logits => bytes == LogitsBytes(m)
    case HiddenState => allowHidden && Values(m, n) * 4 <= WORD_MAX && bytes == Values(m, n) * 4
  }

  /** An accepted reply is a bare acknowledgement of a chunk before the final one, a full row of logits, or
      the hidden values of all the chunk's tokens where the plan promises them: its kind fixes its size. */
  lemma AcceptedIsWhole(m: Model, n: nat, finalChunk: bool, allowHidden: bool, kind: ResultKind, bytes: nat)
    ensures ReplyOk(m, n, finalChunk, allowHidden, kind, bytes) <==>
              match kind
              case Ack => bytes == 0 && !finalChunk
              case Logits => bytes == m.vocab * 4 % 0x1_0000_0000
              case HiddenState => bytes == n * m.hcValues * 4 <= 0xFFFF_FFFF && allowHidden
  {
  }

  /** The answer the last hop sends passes the reader's check, provided only chunks before the final
      one ask for a bare acknowledgement; the final chunk is answered with what the plan's last
      entry promises. */
  lemma AnswerAccepted(m: Model, c: Local, es: seq<RouteEntry>, s: Span, finalChunk: bool)
    requires es != [] && Texts(es) && SpanOk(m, c, es, s) && (s.ackOnly ==> !finalChunk)
    ensures HopWork(m, c, es, s, |es| - 1).Some? && HopWork(m, c, es, s, |es| - 1).value.routeIndex == |es| - 1
    ensures var o := OutcomeOf(m, HopWork(m, c, es, s, |es| - 1).value, es);
            && o.next.None?
            && ReplyOk(m, |s.tokens|, finalChunk, !OutputFlag(es[|es| - 1]), o.kind, o.bytes)
            && o.kind == (if s.ackOnly then Ack else if es[|es| - 1].flags % 2 == 1 then Logits else HiddenState)
            && o.bytes == match o.kind
                          case Ack => 0
                          case Logits => m.vocab * 4 % 0x1_0000_0000
                          case HiddenState => |s.tokens| * m.hcValues * 4
  {
    hide EncodeAll, EncodeReturn, HopWork;
    HopShape(m, c, es, s, |es| - 1);
  }
}
