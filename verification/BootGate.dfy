/**
 * The boot gate: an image is handed to the kernel loader only after it has passed every
 * check, and every rejection is reported to the recovery callback.
 */
module BootGate {
  import opened Basics
  import opened Sha256

  const API_VERSION := 1
  const MAGIC := 0x584E5542
  const MAX_IMAGE_SIZE := 1024 * 1024 * 1024
  const IMAGE_HEADER_SIZE := 64

  const ANSI_BLUE_WHITE := "\U{1B}[44;37m"
  const ANSI_RESET := "\U{1B}[0m"
  const COMPLETE := "secure verification complete; transferring control\n"

  const REQUIRE_SIGNATURE: bv32 := 1
  const REQUIRE_MEASUREMENT: bv32 := 2
  const REQUIRE_ROLLBACK_PROTECTION: bv32 := 4
  const REQUIRE_LAYER_CAPABILITIES: bv32 := 16

  datatype Result =
    | Ok | InvalidArgument | InvalidImage | SignatureRejected | MeasurementRejected
    | RollbackRejected | CapabilityRejected | LoadFailed

  type Bytes = seq<Octet>

  type Measurement = s: Bytes | |s| == 32 witness seq(32, _ => 0)

  /** A call made to the platform, with what it was given. */
  datatype Event =
    | Console(text: string)
    | Verify(payload: Bytes, signature: Bytes)
    | Measure(payload: Bytes)
    | ReadGeneration
    | Load(payload: Bytes)
    | Recovery(result: Result)

  /** Calls, oldest first. */
  type Trace = seq<Event>

  /** Null pointers are `None`. */
  datatype Image = Image(
    magic: nat, version: nat, headerSize: nat, generation: nat, required: bv64,
    payload: Option<Bytes>, signature: Option<Bytes>, expected: Option<Measurement>)

  /** Callbacks may be missing.  Each sees all calls made before its own, so its answer may
      depend on them: callbacks with state of their own are covered. */
  datatype Platform = Platform(
    capabilities: bv64, ansi: bool, console: bool,
    verify: Option<(Trace, Bytes, Bytes) -> int>,
    measure: Option<(Trace, Bytes) -> (int, Measurement)>,
    readGeneration: Option<Trace -> (int, nat)>,
    load: Option<(Trace, Bytes) -> int>,
    recovery: Option<(Trace, Result) -> int>)

  predicate Asked(policy: bv32, flag: bv32) {
    policy & flag != 0
  }

  // ---------- what each stage asks for ----------

  predicate ArgumentsOk(p: Option<Platform>, image: Option<Image>) {
    && p.Some? && image.Some? && image.value.payload.Some?
    && 0 < |image.value.payload.value| <= MAX_IMAGE_SIZE && p.value.console
  }

  /** An image with a payload and a header that passed. */
  predicate HeaderOk(i: Image) {
    && i.payload.Some? && i.magic == MAGIC && i.version == API_VERSION && i.headerSize >= IMAGE_HEADER_SIZE
    && i.signature.Some? && i.signature.value != [] && i.expected.Some?
  }

  predicate CapabilitiesOk(p: Platform, i: Image, policy: bv32) {
    Asked(policy, REQUIRE_LAYER_CAPABILITIES) ==> !Lacks(i.required, p.capabilities)
  }

  /** Some required bit is not present. */
  predicate Lacks(required: bv64, present: bv64) {
    required & !present != 0
  }

  lemma NothingLacking(required: bv64, present: bv64)
    requires !Lacks(required, present)
    ensures required & present == required
  {
    assert (required & present) | (required & !present) == required;
    var both := required & present;
    assert both | 0 == both;
  }

  lemma AllPresent(required: bv64, present: bv64)
    requires required & present == required
    ensures !Lacks(required, present)
  {
    assert (required & present) & (required & !present) == 0;
    assert required & (required & !present) == required & !present;
  }

  /** When asked for, the check passes exactly when the platform has every required capability. */
  lemma CapabilitiesCovered(p: Platform, i: Image, policy: bv32)
    requires Asked(policy, REQUIRE_LAYER_CAPABILITIES)
    ensures CapabilitiesOk(p, i, policy) <==> i.required & p.capabilities == i.required
  {
    if CapabilitiesOk(p, i, policy) {
      NothingLacking(i.required, p.capabilities);
    } else if i.required & p.capabilities == i.required {
      AllPresent(i.required, p.capabilities);
    }
  }

  function Banner(p: Platform): Trace {
    (if p.ansi then [Console(ANSI_BLUE_WHITE)] else []) + [Console("xnu++ secure bootloader\n")]
  }

  /** The calls of a run in which every stage passes, up to and including the loader. */
  function Calls(i: Image): (r: Trace)
    requires HeaderOk(i)
    ensures |r| == 4
  {
    var payload := i.payload.value;
    [Verify(payload, i.signature.value), Measure(payload), ReadGeneration, Load(payload)]
  }

  predicate SignatureOk(p: Platform, i: Image, policy: bv32)
    requires HeaderOk(i)
  {
    && Asked(policy, REQUIRE_SIGNATURE) && p.verify.Some?
    && p.verify.value(Banner(p), i.payload.value, i.signature.value) == 0
  }

  predicate MeasurementOk(p: Platform, i: Image, policy: bv32)
    requires HeaderOk(i)
  {
    && Asked(policy, REQUIRE_MEASUREMENT) && p.measure.Some?
    && p.measure.value(Banner(p) + Calls(i)[..1], i.payload.value) == (0, i.expected.value)
  }

  predicate GenerationOk(p: Platform, i: Image, policy: bv32)
    requires HeaderOk(i)
  {
    && Asked(policy, REQUIRE_ROLLBACK_PROTECTION) && p.readGeneration.Some?
    && var (rc, minimum) := p.readGeneration.value(Banner(p) + Calls(i)[..2]);
       rc == 0 && i.generation >= minimum
  }

  predicate LoadOk(p: Platform, i: Image)
    requires HeaderOk(i)
  {
    p.load.Some? && p.load.value(Banner(p) + Calls(i)[..3], i.payload.value) == 0
  }

  /** Every check that stands before the loader. */
  predicate Cleared(p: Platform, i: Image, policy: bv32) {
    && HeaderOk(i) && CapabilitiesOk(p, i, policy) && SignatureOk(p, i, policy)
    && MeasurementOk(p, i, policy) && GenerationOk(p, i, policy)
  }

  /** How a run with this result ends. */
  function Ending(p: Platform, result: Result): Trace {
    if result == Ok then [Console(COMPLETE)] + if p.ansi then [Console(ANSI_RESET)] else []
    else if p.recovery.Some? then [Recovery(result)] else []
  }

  /** The code of the first stage that does not pass. */
  function Verdict(p: Platform, i: Image, policy: bv32): (r: Result)
    ensures r == Ok <==> Cleared(p, i, policy) && LoadOk(p, i)
    ensures r == LoadFailed <==> Cleared(p, i, policy) && !LoadOk(p, i)
    ensures r != InvalidArgument
  {
    if !HeaderOk(i) then InvalidImage
    else if !CapabilitiesOk(p, i, policy) then CapabilityRejected
    else if !SignatureOk(p, i, policy) then SignatureRejected
    else if !MeasurementOk(p, i, policy) then MeasurementRejected
    else if !GenerationOk(p, i, policy) then RollbackRejected
    else if !LoadOk(p, i) then LoadFailed
    else Ok
  }

  /** How many stage callbacks a run reaches. */
  function Reached(p: Platform, i: Image, policy: bv32): (n: nat)
    ensures n <= 4 && (n > 0 ==> HeaderOk(i) && CapabilitiesOk(p, i, policy))
    ensures n > 1 ==> SignatureOk(p, i, policy)
    ensures n > 2 ==> MeasurementOk(p, i, policy)
    ensures n == 4 <==> Cleared(p, i, policy) && p.load.Some?
  {
    if !HeaderOk(i) || !CapabilitiesOk(p, i, policy) || !Asked(policy, REQUIRE_SIGNATURE) || p.verify.None? then 0
    else if !SignatureOk(p, i, policy) || !Asked(policy, REQUIRE_MEASUREMENT) || p.measure.None? then 1
    else if !MeasurementOk(p, i, policy) || !Asked(policy, REQUIRE_ROLLBACK_PROTECTION) || p.readGeneration.None? then 2
    else if !GenerationOk(p, i, policy) || p.load.None? then 3
    else 4
  }

  function Stages(i: Image, n: nat): (r: Trace)
    requires n <= 4 && (n > 0 ==> HeaderOk(i))
    ensures |r| == n
  {
    if n == 0 then [] else Calls(i)[..n]
  }

  /** All calls of a run whose arguments are good: banner, stages, ending. */
  function Trail(p: Platform, i: Image, policy: bv32): Trace {
    Banner(p) + Stages(i, Reached(p, i, policy)) + Ending(p, Verdict(p, i, policy))
  }

  /** The arguments that are good enough to start with: a payload of at most 2^30 octets. */
  lemma ArgumentsInNumerals(p: Option<Platform>, image: Option<Image>)
    ensures ArgumentsOk(p, image) <==>
      && p.Some? && p.value.console && image.Some? && image.value.payload.Some?
      && 1 <= |image.value.payload.value| <= 0x4000_0000
  {
  }

  lemma AskedMeans(policy: bv32, flag: bv32)
    ensures Asked(policy, flag) <==> policy & flag != 0
  {
  }

  lemma LacksMeans(required: bv64, present: bv64)
    ensures Lacks(required, present) <==> required & !present != 0
  {
  }

  predicate GoodHeader(i: Image) {
    && i.payload.Some? && i.magic == 0x584E5542 && i.version == 1 && i.headerSize >= 64
    && i.signature.Some? && |i.signature.value| > 0 && i.expected.Some?
  }

  /** What an image has to have before any callback is asked. */
  lemma HeaderInNumerals(p: Platform, i: Image, policy: bv32)
    ensures Verdict(p, i, policy) == InvalidImage <==> !GoodHeader(i)
    ensures Verdict(p, i, policy) == CapabilityRejected <==>
              GoodHeader(i) && Asked(policy, 16) && Lacks(i.required, p.capabilities)
  {
  }

  predicate GoodAnswers(p: Platform, i: Image)
    requires GoodHeader(i)
  {
    var m, g, t := i.payload.value, i.signature.value, Banner(p);
    && p.verify.Some? && p.measure.Some? && p.readGeneration.Some? && p.load.Some?
    && p.verify.value(t, m, g) == 0
    && p.measure.value(t + [Verify(m, g)], m) == (0, i.expected.value)
    && p.readGeneration.value(t + [Verify(m, g), Measure(m)]).0 == 0
    && p.readGeneration.value(t + [Verify(m, g), Measure(m)]).1 <= i.generation
    && p.load.value(t + [Verify(m, g), Measure(m), ReadGeneration], m) == 0
  }

  /** An image is accepted exactly when its header is in order, the policy asks for the signature,
      the measurement and the generation, nothing required is missing, and every callback is there
      and gives the right answer. */
  lemma AcceptedInNumerals(p: Platform, i: Image, policy: bv32)
    ensures Verdict(p, i, policy) == Ok <==>
      && GoodHeader(i) && (Asked(policy, 16) ==> !Lacks(i.required, p.capabilities))
      && Asked(policy, 1) && Asked(policy, 2) && Asked(policy, 4) && GoodAnswers(p, i)
  {
    if HeaderOk(i) {
      var m, g := i.payload.value, i.signature.value;
      var c := Calls(i);
      assert c[..1] == [Verify(m, g)] && c[..2] == [Verify(m, g), Measure(m)] && c[..3] == [Verify(m, g), Measure(m), ReadGeneration];
    }
  }

  /** Everything an accepted run calls, in order. */
  lemma AcceptedTrail(p: Platform, i: Image, policy: bv32)
    requires Verdict(p, i, policy) == Ok
    ensures var m := i.payload.value;
      Trail(p, i, policy)
        == (if p.ansi then [Console("\U{1B}[44;37m")] else [])
           + [Console("xnu++ secure bootloader\n"), Verify(m, i.signature.value), Measure(m), ReadGeneration, Load(m),
              Console("secure verification complete; transferring control\n")]
           + if p.ansi then [Console("\U{1B}[0m")] else []
  {
    assert Stages(i, 4) == Calls(i)[..4] == Calls(i);
  }

  // ---------- what follows for every run ----------

  /** The loader is called at most once, straight after the signature check, the measurement
      and the generation read, all of this same payload; and only when all checks passed. */
  lemma LoadIsGuarded(p: Platform, i: Image, policy: bv32, k: nat)
    requires k < |Trail(p, i, policy)| && Trail(p, i, policy)[k].Load?
    ensures Cleared(p, i, policy) && p.load.Some? && k >= 3 && Trail(p, i, policy)[k - 3..k + 1] == Calls(i)
    ensures forall j :: 0 <= j < |Trail(p, i, policy)| && Trail(p, i, policy)[j].Load? ==> j == k
  {
    var t, b, n := Trail(p, i, policy), |Banner(p)|, Reached(p, i, policy);
    assert forall j :: 0 <= j < b ==> t[j] == Banner(p)[j];
    assert forall j :: b <= j < b + n ==> t[j] == Calls(i)[j - b];
    assert forall j :: b + n <= j < |t| ==> t[j] == Ending(p, Verdict(p, i, policy))[j - b - n];
    assert n == 4 && k == b + 3;
  }

  /** ... and it is called whenever all checks passed and there is one. */
  lemma LoadIsReached(p: Platform, i: Image, policy: bv32)
    requires Cleared(p, i, policy) && p.load.Some?
    ensures |Banner(p)| + 3 < |Trail(p, i, policy)| && Trail(p, i, policy)[|Banner(p)| + 3] == Load(i.payload.value)
  {
    assert Trail(p, i, policy)[|Banner(p)| + 3] == Calls(i)[3];
  }

  /** A rejection calls recovery once, last, with the returned code, if there is a callback;
      an accepted run never does. */
  lemma RecoveryOnce(p: Platform, i: Image, policy: bv32, k: nat)
    requires k < |Trail(p, i, policy)|
    ensures Trail(p, i, policy)[k].Recovery?
       <==> Verdict(p, i, policy) != Ok && p.recovery.Some? && k == |Trail(p, i, policy)| - 1
    ensures Trail(p, i, policy)[k].Recovery? ==> Trail(p, i, policy)[k].result == Verdict(p, i, policy)
  {
    var t, b, n := Trail(p, i, policy), |Banner(p)|, Reached(p, i, policy);
    if k < b {
      assert t[k] == Banner(p)[k];
    } else if k < b + n {
      assert t[k] == Calls(i)[k - b];
    } else {
      assert t[k] == Ending(p, Verdict(p, i, policy))[k - b - n];
    }
  }

  // ---------- byte loops ----------

  /** -1, 0 or 1 as the first differing octet decides. */
  method MemCmp(x: array<Octet>, y: Bytes, n: nat) returns (r: int)
    requires n <= x.Length && n <= |y|
    ensures r == 0 <==> x[..n] == y[..n]
    ensures r == -1 || r == 0 || r == 1
    ensures r != 0 ==> exists k :: 0 <= k < n && x[..k] == y[..k] && x[k] != y[k] && (r == -1 <==> x[k] < y[k])
  {
    var i := 0;
    while i < n
      invariant 0 <= i <= n && x[..i] == y[..i]
    {
      if x[i] != y[i] {
        assert x[..n][i] != y[..n][i];
        return if x[i] < y[i] then -1 else 1;
      }
      i := i + 1;
    }
    return 0;
  }

  method MemSet(dst: array<Octet>, value: Octet, n: nat)
    requires n <= dst.Length
    modifies dst
    ensures dst[..] == seq(n, _ => value) + old(dst[n..])
  {
    var i := 0;
    while i < n
      invariant 0 <= i <= n
      invariant forall k :: 0 <= k < i ==> dst[k] == value
      invariant forall k :: i <= k < dst.Length ==> dst[k] == old(dst[k])
    {
      dst[i] := value;
      i := i + 1;
    }
  }

  // ---------- the run ----------

  method Log(p: Platform, text: string, trace: Trace) returns (t: Trace)
    ensures t == if p.console then trace + [Console(text)] else trace
  {
    t := if p.console then trace + [Console(text)] else trace;
  }

  /** The recovery callback's answer changes nothing. */
  method Reject(p: Platform, result: Result, trace: Trace) returns (r: Result, t: Trace)
    requires result != Ok
    ensures r == result && t == trace + Ending(p, result)
  {
    r, t := result, trace;
    if p.recovery.Some? {
      var answer := p.recovery.value(trace, result);
      t := t + [Recovery(result)];
      if answer == 0 {
        return;
      }
    }
  }

  method Greet(p: Platform) returns (t: Trace)
    requires p.console
    ensures t == Banner(p)
  {
    t := [];
    if p.ansi {
      t := Log(p, ANSI_BLUE_WHITE, t);
    }
    t := Log(p, "xnu++ secure bootloader\n", t);
  }

  method Transfer(p: Platform, trace: Trace) returns (t: Trace)
    requires p.console
    ensures t == trace + Ending(p, Ok)
  {
    t := Log(p, COMPLETE, trace);
    if p.ansi {
      t := Log(p, ANSI_RESET, t);
    }
  }

  /** The measurement callback fills the buffer, which is wiped whatever comes out. */
  method MeasureAndCompare(f: (Trace, Bytes) -> (int, Measurement), payload: Bytes, expected: Measurement,
                           trace: Trace, actual: array<Octet>)
    returns (ok: bool, t: Trace)
    requires actual.Length == 32
    modifies actual
    ensures ok <==> f(trace, payload) == (0, expected)
    ensures t == trace + [Measure(payload)]
    ensures actual[..] == seq(32, _ => 0)
  {
    var (rc, written) := f(trace, payload);
    t := trace + [Measure(payload)];
    forall k | 0 <= k < 32 {
      actual[k] := written[k];
    }
    assert actual[..] == actual[..32] == written && expected[..32] == expected;
    ok := rc == 0;
    if ok {
      var c := MemCmp(actual, expected, 32);
      ok := c == 0;
    }
    MemSet(actual, 0, 32);
  }

  method HasCapabilities(p: Platform, i: Image, policy: bv32) returns (ok: bool)
    ensures ok == CapabilitiesOk(p, i, policy)
  {
    ok := true;
    if Asked(policy, REQUIRE_LAYER_CAPABILITIES) {
      ok := !Lacks(i.required, p.capabilities);
    }
  }

  /** A whole run.  `actual` is the 32 octet buffer on the stack. */
  method Start(platform: Option<Platform>, image: Option<Image>, policy: bv32, actual: array<Octet>)
    returns (result: Result, trace: Trace)
    requires actual.Length == 32
    modifies actual
    ensures !ArgumentsOk(platform, image) ==> result == InvalidArgument && trace == []
    ensures ArgumentsOk(platform, image) ==>
      && result == Verdict(platform.value, image.value, policy)
      && trace == Trail(platform.value, image.value, policy)
      && (Reached(platform.value, image.value, policy) >= 2 ==> actual[..] == seq(32, _ => 0))
  {
    if platform.None? || image.None? || image.value.payload.None? || image.value.payload.value == []
       || |image.value.payload.value| > MAX_IMAGE_SIZE || !platform.value.console {
      return InvalidArgument, [];
    }
    var p, i, payload := platform.value, image.value, image.value.payload.value;
    trace := Greet(p);
    if i.magic != MAGIC || i.version != API_VERSION || i.headerSize < IMAGE_HEADER_SIZE
       || i.signature.None? || i.signature.value == [] || i.expected.None? {
      result, trace := Reject(p, InvalidImage, trace);
      return;
    }
    var capable := HasCapabilities(p, i, policy);
    if !capable {
      result, trace := Reject(p, CapabilityRejected, trace);
      return;
    }
    result, trace := Check(p, i, policy, trace, actual);
  }

  /** The stages that call back. */
  method Check(p: Platform, i: Image, policy: bv32, banner: Trace, actual: array<Octet>)
    returns (result: Result, trace: Trace)
    requires p.console && HeaderOk(i) && CapabilitiesOk(p, i, policy)
    requires banner == Banner(p) && actual.Length == 32
    modifies actual
    ensures result == Verdict(p, i, policy) && trace == Trail(p, i, policy)
    ensures Reached(p, i, policy) >= 2 ==> actual[..] == seq(32, _ => 0)
  {
    var payload := i.payload.value;
    trace := banner;
    ghost var c := Calls(i);
    if !Asked(policy, REQUIRE_SIGNATURE) || p.verify.None? {
      result, trace := Reject(p, SignatureRejected, trace);
      return;
    }
    var verified := p.verify.value(trace, payload, i.signature.value);
    trace := trace + [Verify(payload, i.signature.value)];
    assert trace == banner + c[..1];
    if verified != 0 {
      result, trace := Reject(p, SignatureRejected, trace);
      return;
    }
    if !Asked(policy, REQUIRE_MEASUREMENT) || p.measure.None? {
      result, trace := Reject(p, MeasurementRejected, trace);
      return;
    }
    var same;
    same, trace := MeasureAndCompare(p.measure.value, payload, i.expected.value, trace, actual);
    assert trace == banner + c[..2];
    if !same {
      result, trace := Reject(p, MeasurementRejected, trace);
      return;
    }
    if !Asked(policy, REQUIRE_ROLLBACK_PROTECTION) || p.readGeneration.None? {
      result, trace := Reject(p, RollbackRejected, trace);
      return;
    }
    var (rc, minimum) := p.readGeneration.value(trace);
    trace := trace + [ReadGeneration];
    assert trace == banner + c[..3];
    if rc != 0 || i.generation < minimum {
      result, trace := Reject(p, RollbackRejected, trace);
      return;
    }
    result, trace := Hand(p, i, policy, trace);
  }

  /** The loader, after every check. */
  method Hand(p: Platform, i: Image, policy: bv32, before: Trace) returns (result: Result, trace: Trace)
    requires p.console && Cleared(p, i, policy) && before == Banner(p) + Calls(i)[..3]
    ensures result == Verdict(p, i, policy) && trace == Trail(p, i, policy)
  {
    if p.load.None? {
      result, trace := Reject(p, LoadFailed, before);
      return;
    }
    var rc := p.load.value(before, i.payload.value);
    trace := before + [Load(i.payload.value)];
    assert trace == Banner(p) + Calls(i)[..4];
    if rc != 0 {
      result, trace := Reject(p, LoadFailed, trace);
      return;
    }
    trace := Transfer(p, trace);
    result := Ok;
  }

  // ---------- with SHA-256 as the measurement ----------

  function ShaMeasurement(m: Bytes): Measurement {
    DigestLength(m);
    Digest(m)
  }

  /** What the measurement code does when the gate calls it. */
  method MeasurePayload(payload: Bytes) returns (rc: int, m: Measurement)
    requires |payload| <= MAX_IMAGE_SIZE
    ensures rc == 0 && m == ShaMeasurement(payload)
  {
    var data := new Octet[|payload|](k requires 0 <= k < |payload| => payload[k]);
    var out := new Octet[32];
    assert data[..] == payload;
    rc := MeasureSha256(data, out);
    m := out[..];
  }

  /** With that measurement an accepted image's payload has the expected SHA-256 digest, and the
      loader never sees a payload with another one. */
  lemma ShaGate(p: Platform, i: Image, policy: bv32)
    requires ArgumentsOk(Some(p), Some(i)) && p.measure.Some?
    requires forall t, m :: |m| <= MAX_IMAGE_SIZE ==> p.measure.value(t, m) == (0, ShaMeasurement(m))
    ensures Verdict(p, i, policy) == Ok ==> Digest(i.payload.value) == i.expected.value
    ensures forall k :: 0 <= k < |Trail(p, i, policy)| && Trail(p, i, policy)[k].Load? ==>
              i.expected.Some? && Digest(Trail(p, i, policy)[k].payload) == i.expected.value
  {
    forall k | 0 <= k < |Trail(p, i, policy)| && Trail(p, i, policy)[k].Load?
      ensures i.expected.Some? && Digest(Trail(p, i, policy)[k].payload) == i.expected.value
    {
      LoadIsGuarded(p, i, policy, k);
      assert Trail(p, i, policy)[k - 3..k + 1][3] == Calls(i)[3];
    }
  }
}
