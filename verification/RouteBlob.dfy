/** The route description carried by every WORK frame: its encoder in the coordinator and the
    three parsers in the workers (ds4_distributed.c). */
module RouteBlob {
  import opened Options
  import opened Bytes

  const NI_MAXHOST: nat := 1025
  const ENTRY_BYTES: nat := 20
  const RETURN_BYTES: nat := 12
  const F_OUTPUT_LOGITS: nat := 1
  const RETURN_UPSTREAM: nat := 1

  /** ds4_dist_route_entry as it travels; host is the C string without its terminator. */
  datatype RouteEntry = RouteEntry(
    host: seq<Byte>, port: Word32, layerStart: Word32, layerEnd: Word32, flags: Word32)

  /** ds4_dist_route_return. */
  datatype ReturnTarget = ReturnTarget(kind: Word32, host: seq<Byte>, port: Word32)

  const UPSTREAM := ReturnTarget(RETURN_UPSTREAM, [], 0)

  predicate OutputFlag(e: RouteEntry) {
    e.flags % 2 == 1
  }

  // ----- The encoding --------------------------------------------------------------------

  function Size(e: RouteEntry): nat {
    ENTRY_BYTES + |e.host|
  }

  function EncodeEntry(e: RouteEntry): (b: seq<Byte>)
    requires |e.host| <= WORD_MAX
    ensures |b| == Size(e)
  {
    BigEndian(|e.host|) + BigEndian(e.port) + BigEndian(e.layerStart) + BigEndian(e.layerEnd)
    + BigEndian(e.flags) + e.host
  }

  function EncodeReturn(t: ReturnTarget): (b: seq<Byte>)
    requires |t.host| <= WORD_MAX
    ensures |b| == RETURN_BYTES + |t.host|
  {
    BigEndian(t.kind) + BigEndian(|t.host|) + BigEndian(t.port) + t.host
  }

  /** A host that a C string can hold. */
  predicate Text(h: seq<Byte>) {
    |h| <= WORD_MAX && 0 !in h
  }

  predicate HostOk(h: seq<Byte>) {
    0 < |h| < NI_MAXHOST && 0 !in h
  }

  predicate Texts(es: seq<RouteEntry>) {
    forall i :: 0 <= i < |es| ==> Text(es[i].host)
  }

  function EncodeAll(es: seq<RouteEntry>): seq<Byte>
    requires Texts(es)
  {
    if es == [] then [] else EncodeEntry(es[0]) + EncodeAll(es[1..])
  }

  lemma {:induction false} EncodeAllAppend(es: seq<RouteEntry>, fs: seq<RouteEntry>)
    requires Texts(es) && Texts(fs)
    ensures EncodeAll(es + fs) == EncodeAll(es) + EncodeAll(fs)
  {
    hide EncodeEntry;
    if es == [] {
      assert es + fs == fs;
    } else {
      EncodeAllAppend(es[1..], fs);
      assert (es + fs)[1..] == es[1..] + fs;
    }
  }

  lemma EncodeOne(e: RouteEntry)
    requires Text(e.host)
    ensures EncodeAll([e]) == EncodeEntry(e)
  {
    assert [e][1..] == [];
  }

  // ----- Reading one entry ---------------------------------------------------------------

  /** The fixed part at the front of b followed by a host of the length it announces. */
  function Take(b: seq<Byte>): Option<RouteEntry> {
    if |b| < ENTRY_BYTES then None
    else
      var n := WordAt(b, 0);
      if n > |b| - ENTRY_BYTES || 0 in b[ENTRY_BYTES..ENTRY_BYTES + n] then None
      else Some(RouteEntry(b[ENTRY_BYTES..ENTRY_BYTES + n], WordAt(b, 4), WordAt(b, 8), WordAt(b, 12), WordAt(b, 16)))
  }

  /** Where everything stands in an entry: five words, and the host. */
  lemma EntryFormat(e: RouteEntry)
    requires Text(e.host)
    ensures var b := EncodeEntry(e);
            && HoldsBig(b, 0, |e.host|) && HoldsBig(b, 4, e.port) && HoldsBig(b, 8, e.layerStart)
            && HoldsBig(b, 12, e.layerEnd) && HoldsBig(b, 16, e.flags) && b[20..] == e.host
  {
    hide BigEndian, HoldsBig;
    var b := EncodeEntry(e);
    assert b[0..4] == BigEndian(|e.host|);
    assert b[4..8] == BigEndian(e.port);
    assert b[8..12] == BigEndian(e.layerStart);
    assert b[12..16] == BigEndian(e.layerEnd);
    assert b[16..20] == BigEndian(e.flags);
    EncodedHolds(|e.host|, b, 0);
    EncodedHolds(e.port, b, 4);
    EncodedHolds(e.layerStart, b, 8);
    EncodedHolds(e.layerEnd, b, 12);
    EncodedHolds(e.flags, b, 16);
  }

  /** And in a return target: three words, and the host. */
  lemma ReturnFormat(t: ReturnTarget)
    requires Text(t.host)
    ensures var b := EncodeReturn(t);
            HoldsBig(b, 0, t.kind) && HoldsBig(b, 4, |t.host|) && HoldsBig(b, 8, t.port) && b[12..] == t.host
  {
    hide BigEndian, HoldsBig;
    var b := EncodeReturn(t);
    assert b[0..4] == BigEndian(t.kind);
    assert b[4..8] == BigEndian(|t.host|);
    assert b[8..12] == BigEndian(t.port);
    EncodedHolds(t.kind, b, 0);
    EncodedHolds(|t.host|, b, 4);
    EncodedHolds(t.port, b, 8);
  }

  lemma TakeEncoded(e: RouteEntry, rest: seq<Byte>)
    requires Text(e.host)
    ensures Take(EncodeEntry(e) + rest) == Some(e)
  {
    var b := EncodeEntry(e) + rest;
    assert b[0..4] == BigEndian(|e.host|);
    assert b[4..8] == BigEndian(e.port);
    assert b[8..12] == BigEndian(e.layerStart);
    assert b[12..16] == BigEndian(e.layerEnd);
    assert b[16..20] == BigEndian(e.flags);
    WordRoundTrip(|e.host|, b, 0);
    WordRoundTrip(e.port, b, 4);
    WordRoundTrip(e.layerStart, b, 8);
    WordRoundTrip(e.layerEnd, b, 12);
    WordRoundTrip(e.flags, b, 16);
    assert b[ENTRY_BYTES..Size(e)] == e.host;
  }

  lemma TakenIsEncoded(b: seq<Byte>)
    requires Take(b).Some?
    ensures var e := Take(b).value; Text(e.host) && Size(e) <= |b| && b == EncodeEntry(e) + b[Size(e)..]
  {
    hide WordAt, BigEndian;
    var e := Take(b).value;
    WordIsEncoded(b, 0);
    WordIsEncoded(b, 4);
    WordIsEncoded(b, 8);
    WordIsEncoded(b, 12);
    WordIsEncoded(b, 16);
    assert b[0..Size(e)] == b[0..4] + b[4..8] + b[8..12] + b[12..16] + b[16..20] + b[20..Size(e)];
    assert b == b[0..Size(e)] + b[Size(e)..];
  }

  // ----- Reading several entries ---------------------------------------------------------

  lemma TakeFirst(es: seq<RouteEntry>, tail: seq<Byte>)
    requires Texts(es) && es != []
    ensures Take(EncodeAll(es) + tail) == Some(es[0])
  {
    hide EncodeEntry, Take;
    var rest := EncodeAll(es[1..]) + tail;
    assert EncodeAll(es) + tail == EncodeEntry(es[0]) + rest;
    TakeEncoded(es[0], rest);
  }

  /** Entries read from the front of b are the only ones that can stand there. */
  lemma {:induction false} PrefixUnique(es: seq<RouteEntry>, rest: seq<Byte>, fs: seq<RouteEntry>, tail: seq<Byte>)
    requires Texts(es) && Texts(fs) && |es| <= |fs|
    requires EncodeAll(es) + rest == EncodeAll(fs) + tail
    ensures fs[..|es|] == es && rest == EncodeAll(fs[|es|..]) + tail
  {
    hide EncodeEntry, Take;
    if es != [] {
      var b := EncodeAll(es) + rest;
      var esRest, fsRest := EncodeAll(es[1..]) + rest, EncodeAll(fs[1..]) + tail;
      assert b == EncodeEntry(es[0]) + esRest && b == EncodeEntry(fs[0]) + fsRest;
      TakeEncoded(es[0], esRest);
      TakeEncoded(fs[0], fsRest);
      assert es[0] == fs[0];
      assert esRest == b[Size(es[0])..] == fsRest;
      PrefixUnique(es[1..], rest, fs[1..], tail);
      assert fs[..|es|] == [fs[0]] + fs[1..][..|es| - 1];
      assert es == [es[0]] + es[1..];
      assert fs[1..][|es| - 1..] == fs[|es|..];
    }
  }

  lemma WholeUnique(es: seq<RouteEntry>, rest: seq<Byte>, fs: seq<RouteEntry>, tail: seq<Byte>)
    requires Texts(es) && Texts(fs) && |es| == |fs|
    requires EncodeAll(es) + rest == EncodeAll(fs) + tail
    ensures es == fs && rest == tail
  {
    hide EncodeEntry, Take;
    PrefixUnique(es, rest, fs, tail);
    assert fs[|es|..] == [] && fs[..|es|] == fs;
  }

  /** After reading es, any longer description of the same bytes goes on with what Take reads. */
  lemma NextEntry(es: seq<RouteEntry>, rest: seq<Byte>, fs: seq<RouteEntry>, tail: seq<Byte>)
    requires Texts(es) && Texts(fs) && |es| < |fs|
    requires EncodeAll(es) + rest == EncodeAll(fs) + tail
    ensures fs[..|es|] == es && Take(rest) == Some(fs[|es|])
  {
    hide EncodeEntry, Take, EncodeAll;
    PrefixUnique(es, rest, fs, tail);
    TakeFirst(fs[|es|..], tail);
  }

  /** One more entry read from the front of what is left. */
  lemma ReadOne(b: seq<Byte>, es: seq<RouteEntry>, rest: seq<Byte>, e: RouteEntry)
    requires Texts(es) && b == EncodeAll(es) + rest && Take(rest) == Some(e)
    ensures Text(e.host) && Texts(es + [e]) && Size(e) <= |rest|
    ensures b == EncodeAll(es + [e]) + rest[Size(e)..]
  {
    hide Take, EncodeEntry;
    TakenIsEncoded(rest);
    EncodeAllAppend(es, [e]);
    EncodeOne(e);
  }

  // ----- The return target ---------------------------------------------------------------

  function TakeReturn(b: seq<Byte>): Option<ReturnTarget> {
    if |b| < RETURN_BYTES then None
    else
      var n := WordAt(b, 4);
      if n != |b| - RETURN_BYTES || 0 in b[RETURN_BYTES..] then None
      else Some(ReturnTarget(WordAt(b, 0), b[RETURN_BYTES..], WordAt(b, 8)))
  }

  lemma TakeReturnEncoded(t: ReturnTarget)
    requires Text(t.host)
    ensures TakeReturn(EncodeReturn(t)) == Some(t)
  {
    var b := EncodeReturn(t);
    assert b[0..4] == BigEndian(t.kind);
    assert b[4..8] == BigEndian(|t.host|);
    assert b[8..12] == BigEndian(t.port);
    WordRoundTrip(t.kind, b, 0);
    WordRoundTrip(|t.host|, b, 4);
    WordRoundTrip(t.port, b, 8);
    assert b[RETURN_BYTES..] == t.host;
  }

  lemma TakenReturnIsEncoded(b: seq<Byte>)
    requires TakeReturn(b).Some?
    ensures Text(TakeReturn(b).value.host) && b == EncodeReturn(TakeReturn(b).value)
  {
    WordIsEncoded(b, 0);
    WordIsEncoded(b, 4);
    WordIsEncoded(b, 8);
    assert b == b[0..4] + b[4..8] + b[8..12] + b[12..];
  }

  // ----- What the blob means -------------------------------------------------------------

  predicate EntryOk(e: RouteEntry, nLayers: Word32) {
    && HostOk(e.host)
    && 1 <= e.port <= 65535
    && e.layerStart <= e.layerEnd < nLayers
    && e.flags <= F_OUTPUT_LOGITS
    && (OutputFlag(e) ==> e.layerEnd + 1 == nLayers)
  }

  /** Entries a worker is willing to route by: each acceptable, each starting where the previous
      one stopped. */
  ghost predicate WellFormed(es: seq<RouteEntry>, nLayers: Word32) {
    && (forall i :: 0 <= i < |es| ==> EntryOk(es[i], nLayers))
    && (forall i :: 0 < i < |es| ==> es[i].layerStart == es[i - 1].layerEnd + 1)
  }

  function Blob(es: seq<RouteEntry>): seq<Byte>
    requires Texts(es)
  {
    EncodeAll(es) + EncodeReturn(UPSTREAM)
  }

  ghost predicate IsRoute(b: seq<Byte>, count: nat, nLayers: Word32, es: seq<RouteEntry>) {
    |es| == count && WellFormed(es, nLayers) && b == Blob(es)
  }

  /** b starts with at + 1 entries with usable hosts, the last of which is e. */
  ghost predicate EntryAt(b: seq<Byte>, at: nat, e: RouteEntry) {
    exists es: seq<RouteEntry>, tail: seq<Byte> :: HoldsAt(b, at, e, es, tail)
  }

  ghost predicate HoldsAt(b: seq<Byte>, at: nat, e: RouteEntry, es: seq<RouteEntry>, tail: seq<Byte>) {
    && |es| == at + 1 && es[at] == e
    && (forall i :: 0 <= i < |es| ==> HostOk(es[i].host))
    && b == EncodeAll(es) + tail
  }

  /** b is count entries, of whatever content, followed by return target t. */
  ghost predicate ReturnsTo(b: seq<Byte>, count: nat, t: ReturnTarget) {
    && Text(t.host) && |t.host| < NI_MAXHOST
    && exists es: seq<RouteEntry> :: |es| == count && Texts(es) && b == EncodeAll(es) + EncodeReturn(t)
  }

  lemma EncodeNothing()
    ensures EncodeAll([]) == []
  {
  }

  // ----- The parsers ---------------------------------------------------------------------

  lemma RouteGoesOn(b: seq<Byte>, count: nat, nLayers: Word32, es: seq<RouteEntry>, rest: seq<Byte>)
    requires Texts(es) && |es| < count && b == EncodeAll(es) + rest
    ensures forall fs :: IsRoute(b, count, nLayers, fs) ==> fs[..|es|] == es && Take(rest) == Some(fs[|es|])
  {
    hide EncodeAll, EncodeEntry, EncodeReturn, Take;
    forall fs | IsRoute(b, count, nLayers, fs)
      ensures fs[..|es|] == es && Take(rest) == Some(fs[|es|])
    {
      NextEntry(es, rest, fs, EncodeReturn(UPSTREAM));
    }
  }

  lemma RouteEnds(b: seq<Byte>, count: nat, nLayers: Word32, es: seq<RouteEntry>, rest: seq<Byte>)
    requires Texts(es) && |es| == count && b == EncodeAll(es) + rest
    ensures forall fs :: IsRoute(b, count, nLayers, fs) ==> fs == es && TakeReturn(rest) == Some(UPSTREAM)
  {
    hide EncodeAll, EncodeEntry, EncodeReturn, TakeReturn;
    forall fs | IsRoute(b, count, nLayers, fs)
      ensures fs == es && TakeReturn(rest) == Some(UPSTREAM)
    {
      WholeUnique(es, rest, fs, EncodeReturn(UPSTREAM));
      TakeReturnEncoded(UPSTREAM);
    }
  }

  /** dist_route_validate_blob accepts exactly the encodings of well-formed routes. */
  method ValidateBlob(b: seq<Byte>, count: Word32, nLayers: Word32) returns (ok: bool)
    ensures count == 0 ==> (ok <==> b == [])
    ensures count > 0 ==> (ok <==> exists es :: IsRoute(b, count, nLayers, es))
  {
    hide Take, TakeReturn, EncodeAll, EncodeEntry, EncodeReturn;
    if count == 0 {
      return b == [];
    }
    var rest := b;
    var prevEnd := WORD_MAX;
    var i := 0;
    ghost var es: seq<RouteEntry> := [];
    EncodeNothing();
    while i < count
      invariant 0 <= i == |es| <= count
      invariant WellFormed(es, nLayers) && b == EncodeAll(es) + rest
      invariant i > 0 ==> prevEnd == es[i - 1].layerEnd
    {
      RouteGoesOn(b, count, nLayers, es, rest);
      var read := Take(rest);
      if read.None? {
        return false;
      }
      var fixed := read.value;
      if |fixed.host| == 0 || |fixed.host| >= NI_MAXHOST {
        return false;
      }
      if fixed.port == 0 || fixed.port > 65535 {
        return false;
      }
      if fixed.layerStart >= nLayers || fixed.layerEnd >= nLayers || fixed.layerEnd < fixed.layerStart {
        return false;
      }
      if fixed.flags > F_OUTPUT_LOGITS {
        return false;
      }
      if OutputFlag(fixed) && fixed.layerEnd + 1 != nLayers {
        return false;
      }
      if i != 0 && fixed.layerStart != prevEnd + 1 {
        return false;
      }
      ReadOne(b, es, rest, fixed);
      es := es + [fixed];
      rest := rest[Size(fixed)..];
      prevEnd := fixed.layerEnd;
      i := i + 1;
    }
    RouteEnds(b, count, nLayers, es, rest);
    var ret := TakeReturn(rest);
    if ret.None? || |ret.value.host| >= NI_MAXHOST || ret.value.kind != RETURN_UPSTREAM {
      return false;
    }
    if ret.value.host != [] || ret.value.port != 0 {
      return false;
    }
    TakenReturnIsEncoded(rest);
    assert IsRoute(b, count, nLayers, es);
    return true;
  }

  /** dist_route_get_entry returns exactly the entry that stands at the wanted index. */
  method GetEntry(b: seq<Byte>, count: Word32, target: Word32) returns (out: Option<RouteEntry>)
    ensures out.Some? ==> target < count && EntryAt(b, target, out.value)
    ensures out.None? && target < count ==> forall e :: !EntryAt(b, target, e)
  {
    hide Take, EncodeAll, EncodeEntry;
    if target >= count {
      return None;
    }
    var rest := b;
    var i := 0;
    ghost var es: seq<RouteEntry> := [];
    EncodeNothing();
    while i < count
      invariant 0 <= i == |es| <= target
      invariant forall k :: 0 <= k < |es| ==> HostOk(es[k].host)
      invariant b == EncodeAll(es) + rest
    {
      EntriesGoOn(b, target, es, rest);
      var read := Take(rest);
      if read.None? {
        return None;
      }
      var fixed := read.value;
      if |fixed.host| == 0 || |fixed.host| >= NI_MAXHOST {
        return None;
      }
      ReadOne(b, es, rest, fixed);
      es := es + [fixed];
      rest := rest[Size(fixed)..];
      if i == target {
        assert HoldsAt(b, target, fixed, es, rest);
        return Some(fixed);
      }
      i := i + 1;
    }
    out := None;
  }

  lemma EntriesGoOn(b: seq<Byte>, target: nat, es: seq<RouteEntry>, rest: seq<Byte>)
    requires Texts(es) && |es| <= target && b == EncodeAll(es) + rest
    ensures forall e, fs, tail :: HoldsAt(b, target, e, fs, tail) ==> Take(rest) == Some(fs[|es|])
  {
    hide EncodeAll, EncodeEntry, Take;
    forall e, fs, tail | HoldsAt(b, target, e, fs, tail)
      ensures Take(rest) == Some(fs[|es|])
    {
      NextEntry(es, rest, fs, tail);
    }
  }

  lemma TargetGoesOn(b: seq<Byte>, count: nat, es: seq<RouteEntry>, rest: seq<Byte>)
    requires Texts(es) && |es| <= count && b == EncodeAll(es) + rest
    ensures |es| < count ==> forall t :: ReturnsTo(b, count, t) ==> Take(rest).Some?
    ensures |es| == count ==> forall t :: ReturnsTo(b, count, t) ==> TakeReturn(rest) == Some(t)
  {
    hide EncodeAll, EncodeEntry, EncodeReturn, Take, TakeReturn;
    forall t | ReturnsTo(b, count, t)
      ensures if |es| < count then Take(rest).Some? else TakeReturn(rest) == Some(t)
    {
      var fs: seq<RouteEntry> :| |fs| == count && Texts(fs) && b == EncodeAll(fs) + EncodeReturn(t);
      if |es| < count {
        NextEntry(es, rest, fs, EncodeReturn(t));
      } else {
        WholeUnique(es, rest, fs, EncodeReturn(t));
        TakeReturnEncoded(t);
      }
    }
  }

  /** dist_route_get_return_target, which checks less about the entries than the other two. */
  method GetReturnTarget(b: seq<Byte>, count: Word32) returns (out: Option<ReturnTarget>)
    ensures out.Some? ==> count > 0 && ReturnsTo(b, count, out.value)
    ensures out.None? && count > 0 ==> forall t :: !ReturnsTo(b, count, t)
  {
    hide Take, TakeReturn, EncodeAll, EncodeEntry, EncodeReturn;
    if count == 0 {
      return None;
    }
    var rest := b;
    var i := 0;
    ghost var es: seq<RouteEntry> := [];
    EncodeNothing();
    while i < count
      invariant 0 <= i == |es| <= count
      invariant Texts(es) && b == EncodeAll(es) + rest
    {
      TargetGoesOn(b, count, es, rest);
      var read := Take(rest);
      if read.None? {
        return None;
      }
      ReadOne(b, es, rest, read.value);
      es := es + [read.value];
      rest := rest[Size(read.value)..];
      i := i + 1;
    }
    TargetGoesOn(b, count, es, rest);
    var ret := TakeReturn(rest);
    if ret.None? || |ret.value.host| >= NI_MAXHOST {
      return None;
    }
    TakenReturnIsEncoded(rest);
    return ret;
  }

  // ----- Where the parsers agree ---------------------------------------------------------

  /** Two routes with the same encoding are the same route. */
  lemma BlobIsInjective(es: seq<RouteEntry>, fs: seq<RouteEntry>)
    requires Texts(es) && Texts(fs) && |es| == |fs| && Blob(es) == Blob(fs)
    ensures es == fs
  {
    WholeUnique(es, EncodeReturn(UPSTREAM), fs, EncodeReturn(UPSTREAM));
  }

  ghost predicate HostsOk(es: seq<RouteEntry>) {
    forall i :: 0 <= i < |es| ==> HostOk(es[i].host)
  }

  /** Any entries followed by any return target: what each parser makes of such a payload depends
      on different parts of it. */
  function Payload(es: seq<RouteEntry>, t: ReturnTarget): seq<Byte>
    requires Texts(es) && Text(t.host)
  {
    EncodeAll(es) + EncodeReturn(t)
  }

  /** The entry at an index is readable exactly when it and everything before it has a usable
      host, and it is then the entry written there. */
  lemma EntryInPayload(es: seq<RouteEntry>, t: ReturnTarget, at: nat, e: RouteEntry)
    requires Texts(es) && Text(t.host) && at < |es|
    ensures EntryAt(Payload(es, t), at, e) <==> e == es[at] && forall k :: 0 <= k <= at ==> 0 < |es[k].host| < 1025
  {
    hide EncodeAll, EncodeEntry, EncodeReturn;
    var b := Payload(es, t);
    if e == es[at] && forall k :: 0 <= k <= at ==> 0 < |es[k].host| < 1025 {
      var tail := EncodeAll(es[at + 1..]) + EncodeReturn(t);
      assert es == es[..at + 1] + es[at + 1..];
      EncodeAllAppend(es[..at + 1], es[at + 1..]);
      assert HoldsAt(b, at, e, es[..at + 1], tail);
    }
    if EntryAt(b, at, e) {
      var fs: seq<RouteEntry>, tail :| HoldsAt(b, at, e, fs, tail);
      PrefixUnique(fs, tail, es, EncodeReturn(t));
    }
  }

  /** The return target is readable exactly when its host fits the buffer, whatever the entries
      hold. */
  lemma TargetInPayload(es: seq<RouteEntry>, t: ReturnTarget, u: ReturnTarget)
    requires Texts(es) && Text(t.host)
    ensures ReturnsTo(Payload(es, t), |es|, u) <==> u == t && |t.host| < 1025
  {
    hide EncodeAll, EncodeEntry, EncodeReturn, TakeReturn;
    if ReturnsTo(Payload(es, t), |es|, u) {
      var fs: seq<RouteEntry> :| |fs| == |es| && Texts(fs) && Payload(es, t) == EncodeAll(fs) + EncodeReturn(u);
      WholeUnique(es, EncodeReturn(t), fs, EncodeReturn(u));
      TakeReturnEncoded(t);
      TakeReturnEncoded(u);
    }
  }

  /** The validator accepts exactly when the entries are well formed and lead upstream. */
  lemma RouteInPayload(es: seq<RouteEntry>, t: ReturnTarget, nLayers: Word32)
    requires Texts(es) && Text(t.host)
    ensures (exists fs :: IsRoute(Payload(es, t), |es|, nLayers, fs)) <==> WellFormed(es, nLayers) && t == UPSTREAM
  {
    hide EncodeAll, EncodeEntry, EncodeReturn, TakeReturn;
    var b := Payload(es, t);
    if WellFormed(es, nLayers) && t == UPSTREAM {
      assert IsRoute(b, |es|, nLayers, es);
    }
    if fs :| IsRoute(b, |es|, nLayers, fs) {
      WholeUnique(es, EncodeReturn(t), fs, EncodeReturn(UPSTREAM));
      TakeReturnEncoded(t);
      TakeReturnEncoded(UPSTREAM);
    }
  }

  /** The validator's verdict spelled out: every entry has a usable host and port, a range of layers of the
      model that starts where the one before ended, and at most the output flag, which only an entry up to
      the last layer may have; then the bare upstream target follows. */
  lemma AcceptedMeans(es: seq<RouteEntry>, t: ReturnTarget, nLayers: Word32)
    requires Texts(es) && Text(t.host)
    ensures (exists fs :: IsRoute(Payload(es, t), |es|, nLayers, fs)) <==>
            && (forall i :: 0 <= i < |es| ==>
                  && 0 < |es[i].host| < 1025 && 1 <= es[i].port <= 65535
                  && es[i].layerStart <= es[i].layerEnd < nLayers
                  && (es[i].flags == 0 || (es[i].flags == 1 && es[i].layerEnd == nLayers - 1))
                  && (i > 0 ==> es[i].layerStart == es[i - 1].layerEnd + 1))
            && t == ReturnTarget(1, [], 0)
  {
    hide Payload;
    RouteInPayload(es, t, nLayers);
  }

  ghost predicate ReadsAs(b: seq<Byte>, es: seq<RouteEntry>, t: ReturnTarget) {
    (forall i :: 0 <= i < |es| ==> EntryAt(b, i, es[i])) && ReturnsTo(b, |es|, t)
  }

  /** The two readers both go through on exactly the payloads made of usable hosts and a return
      target that fits, and they read back what is there. */
  lemma ReadersAgree(b: seq<Byte>, es: seq<RouteEntry>, t: ReturnTarget)
    requires es != []
    ensures ReadsAs(b, es, t)
      <==> Text(t.host) && |t.host| < NI_MAXHOST && HostsOk(es) && b == Payload(es, t)
  {
    hide EncodeAll, EncodeEntry, EncodeReturn;
    var last := |es| - 1;
    if Text(t.host) && |t.host| < NI_MAXHOST && HostsOk(es) && b == Payload(es, t) {
      forall i | 0 <= i < |es| ensures EntryAt(b, i, es[i]) {
        EntryInPayload(es, t, i, es[i]);
      }
      TargetInPayload(es, t, t);
    }
    if ReadsAs(b, es, t) {
      var fs: seq<RouteEntry> :| |fs| == |es| && Texts(fs) && b == EncodeAll(fs) + EncodeReturn(t);
      assert b == Payload(fs, t);
      forall i | 0 <= i < |es| ensures es[i] == fs[i] && HostOk(fs[i].host) {
        assert EntryAt(b, i, es[i]);
        EntryInPayload(fs, t, i, es[i]);
        assert fs[..i + 1][i] == fs[i];
      }
      assert es == fs;
    }
  }

  /** Of any payload at all: the validator accepts it exactly when the two readers go through and
      what they read is a well-formed route that leads upstream. */
  lemma AcceptedExactly(b: seq<Byte>, nLayers: Word32, es: seq<RouteEntry>)
    requires es != []
    ensures IsRoute(b, |es|, nLayers, es) <==> ReadsAs(b, es, UPSTREAM) && WellFormed(es, nLayers)
  {
    hide EncodeAll, EncodeEntry, EncodeReturn;
    ReadersAgree(b, es, UPSTREAM);
  }

  /** One entry with an empty host: the return target is read, the entry and the route are not. */
  lemma EmptyHostPartsThem(nLayers: Word32)
    ensures var b := Payload([RouteEntry([], 1, 0, 0, 0)], UPSTREAM);
            && ReturnsTo(b, 1, UPSTREAM)
            && (forall e :: !EntryAt(b, 0, e))
            && (forall fs :: !IsRoute(b, 1, nLayers, fs))
  {
    hide EncodeAll, EncodeEntry, EncodeReturn;
    var es := [RouteEntry([], 1, 0, 0, 0)];
    TargetInPayload(es, UPSTREAM, UPSTREAM);
    RouteInPayload(es, UPSTREAM, nLayers);
    forall e ensures !EntryAt(Payload(es, UPSTREAM), 0, e) {
      EntryInPayload(es, UPSTREAM, 0, e);
      assert es[..1][0] == es[0];
    }
  }

  /** One entry with a usable host and port 0: both readers take it, the validator does not. */
  lemma PortZeroPartsThem(nLayers: Word32)
    ensures var e := RouteEntry([97], 0, 0, 0, 0);
            var b := Payload([e], UPSTREAM);
            && ReadsAs(b, [e], UPSTREAM)
            && (forall fs :: !IsRoute(b, 1, nLayers, fs))
  {
    hide EncodeAll, EncodeEntry, EncodeReturn;
    var es := [RouteEntry([97], 0, 0, 0, 0)];
    ReadersAgree(Payload(es, UPSTREAM), es, UPSTREAM);
    RouteInPayload(es, UPSTREAM, nLayers);
    assert !EntryOk(es[0], nLayers);
  }

  /** In an accepted blob the entry found at each index is that entry of the route, and nothing
      else. */
  lemma AcceptedEntries(b: seq<Byte>, count: nat, nLayers: Word32, es: seq<RouteEntry>, at: nat, e: RouteEntry)
    requires IsRoute(b, count, nLayers, es) && at < count
    ensures EntryAt(b, at, e) <==> e == es[at]
  {
    hide EncodeAll, EncodeEntry, EncodeReturn;
    EntryInPayload(es, UPSTREAM, at, e);
  }

  /** In an accepted blob the return target is the upstream connection, and nothing else. */
  lemma AcceptedTarget(b: seq<Byte>, count: nat, nLayers: Word32, es: seq<RouteEntry>, t: ReturnTarget)
    requires IsRoute(b, count, nLayers, es)
    ensures ReturnsTo(b, count, t) <==> t == UPSTREAM
  {
    hide EncodeAll, EncodeEntry, EncodeReturn;
    TargetInPayload(es, UPSTREAM, t);
  }
}
