/** Verification, evidence-gated strategy selection and CUDA compilation of communication programs. */
module Compiler {
  import opened Sequences
  import opened Wrappers
  import opened Codecs
  import opened Executors
  import opened Collectives
  import opened FusedKernels
  import opened Programs
  import Metadata

  datatype Operation = ReduceMean | ReduceSum

  datatype Output = FullTensor(dtype: DataType) | ReducedShard(dtype: DataType, layoutVersion: nat)

  datatype Wire = Quantized(wire: QuantizedWire) | FullPrecision(dtype: DataType)

  datatype Algorithm = Auto | NativeAllReduce | CompressedAllGather | CompressedReduceScatter | CompressedRsAg

  datatype FeedbackDomain = NoFeedback | GradientFeedback | ParameterDeltaFeedback

  datatype Program =
    Program(operation: Operation, output: Output, wire: Wire, algorithm: Algorithm, feedback: FeedbackDomain)

  datatype Context = Context(
    rank: nat, worldSize: nat, shape: seq<nat>, dtype: DataType, deviceType: string, topologySignature: string)

  datatype Evidence = Evidence(
    evidenceId: string, target: string, topologySignature: string, worldSize: nat, speedupPercent: real)
  {
    predicate Matches(deviceType: string, context: Context) {
      target == deviceType && topologySignature == context.topologySignature && worldSize == context.worldSize
    }
  }

  /** Why a program is not compiled. */
  datatype Rejection =
    | ShardFromFullTensorAlgorithm | FullTensorFromShardAlgorithm | DtypeMismatch | FeedbackDomainMismatch
    | NoBackend | UnsupportedAlgorithm | UnsupportedWire | ExtensionUnavailable | WireNotQuantized
    | NeedsReducedShardOutput | NeedsFullTensorOutput | CompactNotFused | WireNotFused

  datatype Outcome<+T> = Compiled(value: T) | Rejected(reason: Rejection)

  /** Why an automatic program runs the native algorithm. */
  datatype Fallback = MissingEvidence | EvidenceMismatch | NoSpeedup

  /** The static verifier. */
  function Verify(program: Program, context: Context): Outcome<Program> {
    if program.output.ReducedShard? && program.algorithm.CompressedRsAg? then
      Rejected(ShardFromFullTensorAlgorithm)
    else if program.output.FullTensor? && program.algorithm.CompressedReduceScatter? then
      Rejected(FullTensorFromShardAlgorithm)
    else if program.output.dtype != context.dtype then
      Rejected(DtypeMismatch)
    else if program.feedback.ParameterDeltaFeedback? && program.output.FullTensor? then
      Rejected(FeedbackDomainMismatch)
    else Compiled(program)
  }

  datatype AutoDecision =
    AutoDecision(useCompression: bool, fallbackReason: Option<Fallback>, evidenceId: Option<string>)

  function DecideAuto(target: string, context: Context, evidence: Option<Evidence>): AutoDecision {
    match evidence
    case None => AutoDecision(false, Some(MissingEvidence), None)
    case Some(e) =>
      if !e.Matches(target, context) then AutoDecision(false, Some(EvidenceMismatch), None)
      else if e.speedupPercent <= 0.0 then
        AutoDecision(false, Some(NoSpeedup), Some(e.evidenceId))
      else AutoDecision(true, None, Some(e.evidenceId))
  }

  datatype Selection = Selection(effective: Program, fallbackReason: Option<Fallback>, evidenceId: Option<string>)

  function SelectEffective(program: Program, context: Context, evidence: Option<Evidence>): Selection {
    if !program.algorithm.Auto? then Selection(program, None, None)
    else
      var decision := DecideAuto(context.deviceType, context, evidence);
      if decision.useCompression then
        Selection(program.(algorithm := CompressedRsAg), None, decision.evidenceId)
      else
        Selection(program.(algorithm := NativeAllReduce, wire := FullPrecision(context.dtype)),
                  decision.fallbackReason, decision.evidenceId)
  }

  // ---------------------------------------------------------------------------
  // The CUDA backend.

  /** What the backend announces: every algorithm but the automatic one, and 4- and 8-bit wires. */
  function RequireSupported(program: Program): Outcome<Program> {
    if program.algorithm.Auto? then Rejected(UnsupportedAlgorithm)
    else if program.wire.Quantized? && program.wire.wire.bit != 4 && program.wire.wire.bit != 8 then
      Rejected(UnsupportedWire)
    else Compiled(program)
  }

  datatype Executable =
    | NativeExecutable
    | AllGatherExecutable(wire: QuantizedWire)
    | ReducedShardExecutable(wire: QuantizedWire)
    | FullTensorExecutable(wire: QuantizedWire)

  /** Map an algorithm to its executable; the compressed ones need the extension and a quantized wire. */
  function BuildExecutable(program: Program, extensionAvailable: bool): Outcome<Executable> {
    match program.algorithm
    case NativeAllReduce => Compiled(NativeExecutable)
    case CompressedAllGather =>
      if !extensionAvailable then Rejected(ExtensionUnavailable)
      else if program.wire.FullPrecision? then Rejected(WireNotQuantized)
      else Compiled(AllGatherExecutable(program.wire.wire))
    case CompressedReduceScatter =>
      if !program.output.ReducedShard? then Rejected(NeedsReducedShardOutput)
      else if !extensionAvailable then Rejected(ExtensionUnavailable)
      else if program.wire.FullPrecision? then Rejected(WireNotQuantized)
      else Compiled(ReducedShardExecutable(program.wire.wire))
    case CompressedRsAg =>
      if !program.output.FullTensor? then Rejected(NeedsFullTensorOutput)
      else if program.wire.FullPrecision? then Rejected(WireNotQuantized)
      else if program.wire.wire.compact then Rejected(CompactNotFused)
      else if !FusedWire(program.wire.wire) then Rejected(WireNotFused)
      else if !extensionAvailable then Rejected(ExtensionUnavailable)
      else Compiled(FullTensorExecutable(program.wire.wire))
    case Auto => Rejected(UnsupportedAlgorithm)
  }

  datatype Bound = Bound(executable: Executable, selection: Selection)

  function Compile(program: Program, context: Context, evidence: Option<Evidence>, extensionAvailable: bool)
    : Outcome<Bound>
  {
    if Verify(program, context).Rejected? then Rejected(Verify(program, context).reason)
    else if context.deviceType != "cuda" then Rejected(NoBackend)
    else
      var selection := SelectEffective(program, context, evidence);
      if RequireSupported(selection.effective).Rejected? then Rejected(RequireSupported(selection.effective).reason)
      else
        match BuildExecutable(selection.effective, extensionAvailable)
        case Rejected(reason) => Rejected(reason)
        case Compiled(executable) => Compiled(Bound(executable, selection))
  }

  // ---------------------------------------------------------------------------
  // Selection keeps meaning.

  ghost predicate HasSpeedupEvidence(context: Context, evidence: Option<Evidence>) {
    evidence.Some? && evidence.value.Matches(context.deviceType, context) && evidence.value.speedupPercent > 0.0
  }

  /** What selection may change: explicit algorithms stay as they are, an automatic one becomes the
      compressed program exactly when matching evidence shows a speedup, and the native one otherwise.
      Operation, output and feedback never change. */
  lemma {:induction false} SelectionIsEvidenceGated(program: Program, context: Context, evidence: Option<Evidence>)
    ensures var s := SelectEffective(program, context, evidence);
            && !s.effective.algorithm.Auto?
            && s.effective.operation == program.operation && s.effective.output == program.output
            && s.effective.feedback == program.feedback
            && (!program.algorithm.Auto? ==> s == Selection(program, None, None))
            && (program.algorithm.Auto? ==>
                  (s.effective.algorithm.CompressedRsAg? <==> HasSpeedupEvidence(context, evidence))
                  && (s.effective.algorithm.NativeAllReduce? <==> s.fallbackReason.Some?)
                  && (s.effective.algorithm.CompressedRsAg? ==> s.effective.wire == program.wire)
                  && (s.effective.algorithm.NativeAllReduce? ==> s.effective.wire == FullPrecision(context.dtype)))
  {
    if program.algorithm.Auto? {
      var decision := DecideAuto(context.deviceType, context, evidence);
      if evidence.Some? && evidence.value.Matches(context.deviceType, context) {
        assert decision.useCompression <==> evidence.value.speedupPercent > 0.0;
      }
    }
  }

  /** An automatic program is compressed exactly on evidence that names the context's device type, topology and world
      size and a positive speedup; otherwise it runs native, and the reason is the first that applies: no evidence,
      evidence for something else, no speedup.  The evidence is named when it matches. */
  lemma {:induction false} AutomaticIsCompressedIff(program: Program, context: Context, evidence: Option<Evidence>)
    requires program.algorithm.Auto?
    ensures var s := SelectEffective(program, context, evidence);
            var matches := evidence.Some? && evidence.value.target == context.deviceType
                           && evidence.value.topologySignature == context.topologySignature
                           && evidence.value.worldSize == context.worldSize;
            && (s.effective.algorithm == CompressedRsAg <==> matches && evidence.value.speedupPercent > 0.0)
            && (s.effective.algorithm == NativeAllReduce <==> !(matches && evidence.value.speedupPercent > 0.0))
            && (s.fallbackReason == Some(MissingEvidence) <==> evidence.None?)
            && (s.fallbackReason == Some(EvidenceMismatch) <==> evidence.Some? && !matches)
            && (s.fallbackReason == Some(NoSpeedup) <==> matches && evidence.value.speedupPercent <= 0.0)
            && s.evidenceId == if matches then Some(evidence.value.evidenceId) else None
  {
  }

  /** Evidence for another device type, topology or world size compiles every program as no evidence does. */
  lemma {:induction false} OtherEvidenceIsNoEvidence(
    program: Program, context: Context, e: Evidence, extensionAvailable: bool)
    requires e.target != context.deviceType || e.topologySignature != context.topologySignature
             || e.worldSize != context.worldSize
    ensures var a := Compile(program, context, Some(e), extensionAvailable);
            var b := Compile(program, context, None, extensionAvailable);
            && SelectEffective(program, context, Some(e)).effective == SelectEffective(program, context, None).effective
            && (a.Rejected? <==> b.Rejected?)
            && (a.Rejected? ==> a == b)
            && (a.Compiled? ==> a.value.executable == b.value.executable)
  {
    hide Verify, RequireSupported, BuildExecutable;
  }

  /** What a program compiles to, by what it asks for and whether it ends up compressed. */
  ghost predicate CompilesTo(program: Program, compressed: bool, extensionAvailable: bool, x: Executable) {
    match program.algorithm
    case NativeAllReduce => x == NativeExecutable
    case CompressedAllGather =>
      extensionAvailable && program.wire.Quantized? && x == AllGatherExecutable(program.wire.wire)
    case CompressedReduceScatter =>
      extensionAvailable && program.wire.Quantized? && program.output.ReducedShard?
      && x == ReducedShardExecutable(program.wire.wire)
    case CompressedRsAg => RestoresFullTensor(program, extensionAvailable, x)
    case Auto => if compressed then RestoresFullTensor(program, extensionAvailable, x) else x == NativeExecutable
  }

  ghost predicate RestoresFullTensor(program: Program, extensionAvailable: bool, x: Executable) {
    && extensionAvailable && program.output.FullTensor? && program.wire.Quantized?
    && program.wire.wire.bit == 8 && program.wire.wire.groupSize == 64 && program.wire.wire.quantType == "linear"
    && !program.wire.wire.compact && x == FullTensorExecutable(program.wire.wire)
  }

  /** Compilation gives an executable exactly for a CUDA program of the context's element type whose output fits its
      algorithm, with the extension and a wire that the algorithm can use. */
  lemma {:induction false} CompilesIff(
    program: Program, context: Context, evidence: Option<Evidence>, extensionAvailable: bool, x: Executable)
    requires program.wire.Quantized? ==> program.wire.wire.Valid()
    ensures var c := Compile(program, context, evidence, extensionAvailable);
            var compressed := evidence.Some? && evidence.value.target == context.deviceType
                              && evidence.value.topologySignature == context.topologySignature
                              && evidence.value.worldSize == context.worldSize && evidence.value.speedupPercent > 0.0;
            c.Compiled? && c.value.executable == x <==>
              && context.deviceType == "cuda" && program.output.dtype == context.dtype
              && !(program.output.FullTensor? && program.feedback.ParameterDeltaFeedback?)
              && !(program.output.FullTensor? && program.algorithm.CompressedReduceScatter?)
              && CompilesTo(program, compressed, extensionAvailable, x)
  {
    if program.algorithm.Auto? {
      AutomaticIsCompressedIff(program, context, evidence);
    }
    SelectionIsEvidenceGated(program, context, evidence);
  }

  /** Each rejection by its own condition and the absence of the earlier ones.  The static checks see the program as it
      was written, the backend the one that was selected. */
  lemma {:induction false} RejectedWith(
    program: Program, context: Context, evidence: Option<Evidence>, extensionAvailable: bool)
    requires program.wire.Quantized? ==> program.wire.wire.Valid()
    ensures var c := Compile(program, context, evidence, extensionAvailable);
            var compressed := program.algorithm.Auto? && evidence.Some? && evidence.value.target == context.deviceType
                              && evidence.value.topologySignature == context.topologySignature
                              && evidence.value.worldSize == context.worldSize && evidence.value.speedupPercent > 0.0;
            var shardAsTensor := program.output.ReducedShard? && program.algorithm.CompressedRsAg?;
            var tensorAsShard := program.output.FullTensor? && program.algorithm.CompressedReduceScatter?;
            var otherType := program.output.dtype != context.dtype;
            var misplaced := program.feedback.ParameterDeltaFeedback? && program.output.FullTensor?;
            var cuda := !shardAsTensor && !tensorAsShard && !otherType && !misplaced && context.deviceType == "cuda";
            var gathers := cuda && program.algorithm.CompressedAllGather?;
            var scatters := cuda && program.algorithm.CompressedReduceScatter? && program.output.ReducedShard?;
            var restores := cuda && (program.algorithm.CompressedRsAg? || compressed);
            var quantized := program.wire.Quantized?;
            var loose := quantized && !program.wire.wire.compact;
            var fused := loose && program.wire.wire.bit == 8 && program.wire.wire.groupSize == 64
                         && program.wire.wire.quantType == "linear";
            && (c == Rejected(ShardFromFullTensorAlgorithm) <==> shardAsTensor)
            && (c == Rejected(FullTensorFromShardAlgorithm) <==> tensorAsShard)
            && (c == Rejected(DtypeMismatch) <==> !shardAsTensor && !tensorAsShard && otherType)
            && (c == Rejected(FeedbackDomainMismatch) <==>
                  !shardAsTensor && !tensorAsShard && !otherType && misplaced)
            && (c == Rejected(NoBackend) <==> !shardAsTensor && !tensorAsShard && !otherType && !misplaced && !cuda)
            && (c == Rejected(ExtensionUnavailable) <==>
                  !extensionAvailable
                  && (gathers || scatters || (restores && program.output.FullTensor? && fused)))
            && (c == Rejected(NeedsFullTensorOutput) <==> restores && program.output.ReducedShard?)
            && (c == Rejected(WireNotQuantized) <==>
                  !quantized && (((gathers || scatters) && extensionAvailable)
                                 || (restores && program.output.FullTensor?)))
            && (c == Rejected(CompactNotFused) <==> restores && program.output.FullTensor? && quantized && !loose)
            && (c == Rejected(WireNotFused) <==> restores && program.output.FullTensor? && loose && !fused)
  {
    if program.algorithm.Auto? {
      AutomaticIsCompressedIff(program, context, evidence);
    }
    SelectionIsEvidenceGated(program, context, evidence);
  }

  /** A verified program stays verified, except that an automatic reduced-shard program turns into a
      full-tensor one exactly when the evidence selects compression. */
  lemma {:induction false} EffectiveVerifiesIff(program: Program, context: Context, evidence: Option<Evidence>)
    requires Verify(program, context).Compiled?
    ensures Verify(SelectEffective(program, context, evidence).effective, context).Compiled?
       <==> !(program.algorithm.Auto? && program.output.ReducedShard? && HasSpeedupEvidence(context, evidence))
  {
    SelectionIsEvidenceGated(program, context, evidence);
  }

  /** A concrete program for which it does not. */
  lemma AutoReducedShardIsRewritten()
    ensures var context := Context(0, 2, [64], FP32, "cuda", "node_ids=0,0");
            var wire := Quantized(QuantizedWire(8, 64, "linear", false));
            var program := Program(ReduceMean, ReducedShard(FP32, 0), wire, Auto, NoFeedback);
            var evidence := Some(Evidence("e", "cuda", "node_ids=0,0", 2, 1.0));
            && Verify(program, context).Compiled?
            && Verify(SelectEffective(program, context, evidence).effective, context).Rejected?
            && Compile(program, context, evidence, true).Rejected?
  {
  }

  // ---------------------------------------------------------------------------
  // What the compiled executables deliver.

  function Elements(shape: seq<nat>): nat {
    ProductIsNatural(shape);
    Metadata.Product(shape)
  }

  lemma ProductIsNatural(shape: seq<nat>)
    ensures Metadata.Product(shape) >= 0
  {
  }

  /** The codec of the executable's wire has the sizes that the wire prescribes. */
  ghost predicate Suits<B(!new)>(x: Executable, c: Codec<B>, dtype: DataType) {
    match x
    case NativeExecutable => true
    case AllGatherExecutable(wire) => c.Fits(wire, dtype)
    case ReducedShardExecutable(wire) => c.Fits(wire, dtype)
    case FullTensorExecutable(wire) => c.Fits(wire, dtype) && FusedWire(wire)
  }

  /** How the executable ends on rank `r` when all ranks run it on inputs of the compiled size. */
  ghost function EndsOn<B(!new)>(
    x: Executable, c: Codec<B>, dtype: DataType, numel: nat, xs: seq<seq<real>>, r: nat): Ending<seq<real>>
    requires Suits(x, c, dtype) && Uniform(xs, numel) && r < |xs|
  {
    match x
    case NativeExecutable => Returned(MeanOf(xs, numel))
    case AllGatherExecutable(wire) => GatherEnding(c, wire, dtype, numel, xs, r)
    case ReducedShardExecutable(wire) => ShardEnding(c, wire, dtype, numel, xs, r)
    case FullTensorExecutable(wire) => FullTensorEnding(c, wire, dtype, numel, xs, r)
  }

  /** The native executable always runs, a compressed one only when the fused kernels accept it. */
  predicate Runs(x: Executable, world: nat, numel: nat) {
    match x
    case NativeExecutable => true
    case AllGatherExecutable(wire) => Accepted(wire, world, numel)
    case ReducedShardExecutable(wire) => Accepted(wire, world, numel)
    case FullTensorExecutable(wire) => Accepted(wire, world, numel)
  }

  /** An executable that returns a full tensor gives a rank the mean exactly when it runs, and raises on every
      rank otherwise. */
  lemma {:induction false} ExecutableComputesMeanIff<B(!new)>(
    x: Executable, c: Codec<B>, dtype: DataType, numel: nat, xs: seq<seq<real>>, r: nat)
    requires !x.ReducedShardExecutable? && Suits(x, c, dtype) && c.Lossless()
    requires Uniform(xs, numel) && r < |xs|
    ensures EndsOn(x, c, dtype, numel, xs, r) == if Runs(x, |xs|, numel) then Returned(MeanOf(xs, numel)) else Raised
  {
    match x {
      case NativeExecutable =>
      case AllGatherExecutable(wire) => LosslessValues(c, wire, dtype, numel, xs);
      case FullTensorExecutable(wire) => LosslessValues(c, wire, dtype, numel, xs);
    }
  }

  /** Exactly the programs that ask for a shard by name are compiled to an executable that returns one. */
  lemma {:induction false} ShardIsReturnedIff(
    program: Program, context: Context, evidence: Option<Evidence>, extensionAvailable: bool)
    requires Compile(program, context, evidence, extensionAvailable).Compiled?
    ensures Compile(program, context, evidence, extensionAvailable).value.executable.ReducedShardExecutable?
       <==> program.algorithm.CompressedReduceScatter?
    ensures program.algorithm.CompressedReduceScatter? ==> program.output.ReducedShard?
  {
    var effective := SelectEffective(program, context, evidence).effective;
    SelectionIsEvidenceGated(program, context, evidence);
    assert Compiled(Compile(program, context, evidence, extensionAvailable).value.executable)
        == BuildExecutable(effective, extensionAvailable);
  }

  /** The programs for which no compressed executable is chosen. */
  ghost predicate StaysNative(program: Program, context: Context, evidence: Option<Evidence>) {
    program.algorithm.NativeAllReduce? || (program.algorithm.Auto? && !HasSpeedupEvidence(context, evidence))
  }

  /** What a compiled full-tensor program is compiled to. */
  lemma {:induction false} CompiledFullTensor(
    program: Program, context: Context, evidence: Option<Evidence>, extensionAvailable: bool)
    requires program.output.FullTensor? && Compile(program, context, evidence, extensionAvailable).Compiled?
    ensures var x := Compile(program, context, evidence, extensionAvailable).value.executable;
            && !x.ReducedShardExecutable?
            && (x.NativeExecutable? <==> StaysNative(program, context, evidence))
            && (!x.NativeExecutable? ==>
                  program.wire.Quantized? && (x == AllGatherExecutable(program.wire.wire)
                                              || x == FullTensorExecutable(program.wire.wire)))
  {
    ShardIsReturnedIff(program, context, evidence, extensionAvailable);
    SelectionIsEvidenceGated(program, context, evidence);
    assert Compiled(Compile(program, context, evidence, extensionAvailable).value.executable)
        == BuildExecutable(SelectEffective(program, context, evidence).effective, extensionAvailable);
    hide Verify, SelectEffective;
  }

  /** Whatever was selected: a compiled full-tensor program gives every rank the native all-reduce result under
      a lossless codec exactly if it stays native, or there are at most eight ranks, the tensor is not
      empty and the wire is INT8 linear in groups of 64.  Otherwise every rank raises on every run. */
  lemma {:induction false} SelectionPreservesMeaningIff<B(!new)>(
    program: Program, context: Context, evidence: Option<Evidence>, extensionAvailable: bool,
    c: Codec<B>, xs: seq<seq<real>>)
    requires program.output.FullTensor? && Compile(program, context, evidence, extensionAvailable).Compiled?
    requires |xs| == context.worldSize > 0 && Uniform(xs, Elements(context.shape)) && c.Lossless()
    requires Suits(Compile(program, context, evidence, extensionAvailable).value.executable, c, context.dtype)
    ensures var x := Compile(program, context, evidence, extensionAvailable).value.executable;
            var numel := Elements(context.shape);
            var works := StaysNative(program, context, evidence)
                         || (program.wire.Quantized? && context.worldSize <= 8 && numel > 0
                             && program.wire.wire.bit == 8 && program.wire.wire.groupSize == 64
                             && program.wire.wire.quantType == "linear");
            && ((forall r :: 0 <= r < |xs| ==> EndsOn(x, c, context.dtype, numel, xs, r) == Returned(MeanOf(xs, numel)))
                <==> works)
            && (!works ==> forall r :: 0 <= r < |xs| ==> EndsOn(x, c, context.dtype, numel, xs, r) == Raised)
  {
    var x, numel := Compile(program, context, evidence, extensionAvailable).value.executable, Elements(context.shape);
    CompiledFullTensor(program, context, evidence, extensionAvailable);
    hide Compile, EndsOn, StaysNative;
    forall r | 0 <= r < |xs|
      ensures EndsOn(x, c, context.dtype, numel, xs, r)
           == if Runs(x, |xs|, numel) then Returned(MeanOf(xs, numel)) else Raised
    {
      ExecutableComputesMeanIff(x, c, context.dtype, numel, xs, r);
    }
    assert EndsOn(x, c, context.dtype, numel, xs, 0)
        == if Runs(x, |xs|, numel) then Returned(MeanOf(xs, numel)) else Raised;
  }

  /** An automatic program on sixteen ranks with evidence of a speedup: it compiles, and every run raises on every
      rank; without the evidence it compiles to the native executable, which always runs. */
  lemma {:induction false} SpeedupEvidenceCanBreakProgram(xs: seq<seq<real>>, r: nat)
    requires |xs| == 16 && Uniform(xs, 64) && r < 16
    ensures var c := Verbatim(64, FP32);
            var context := Context(0, 16, [64], FP32, "cuda", "node_ids=0");
            var wire := QuantizedWire(8, 64, "linear", false);
            var program := Program(ReduceMean, FullTensor(FP32), Quantized(wire), Auto, NoFeedback);
            var evidence := Some(Evidence("e", "cuda", "node_ids=0", 16, 1.0));
            && c.Fits(wire, FP32) && c.Lossless()
            && Compile(program, context, evidence, true).Compiled?
            && Compile(program, context, evidence, true).value.executable == FullTensorExecutable(wire)
            && EndsOn(FullTensorExecutable(wire), c, FP32, 64, xs, r) == Raised
            && Compile(program, context, None, true).Compiled?
            && Compile(program, context, None, true).value.executable == NativeExecutable
            && EndsOn(NativeExecutable, c, FP32, 64, xs, r) == Returned(MeanOf(xs, 64))
  {
    var wire := QuantizedWire(8, 64, "linear", false);
    assert !IsSpace(wire.quantType[0]);
    VerbatimIsLossless(wire, FP32);
    hide FullTensorValue, Verbatim, Codec.Lossless;
  }

  /** The operation has no influence on what is compiled: a sum program runs the mean executable. */
  lemma {:induction false} OperationIsIgnored(
    program: Program, operation: Operation, context: Context, evidence: Option<Evidence>, extensionAvailable: bool)
    ensures var a := Compile(program, context, evidence, extensionAvailable);
            var b := Compile(program.(operation := operation), context, evidence, extensionAvailable);
            && (a.Compiled? <==> b.Compiled?)
            && (a.Compiled? ==> a.value.executable == b.value.executable)
  {
    var other := program.(operation := operation);
    var p := SelectEffective(program, context, evidence).effective;
    var q := SelectEffective(other, context, evidence).effective;
    BuildIgnoresOperation(p, operation, context, extensionAvailable);
    BuildIgnoresOperation(program, operation, context, extensionAvailable);
    assert q == p.(operation := operation);
    hide Verify, RequireSupported, BuildExecutable, SelectEffective;
  }

  lemma BuildIgnoresOperation(p: Program, operation: Operation, context: Context, extensionAvailable: bool)
    ensures var q := p.(operation := operation);
            && (Verify(p, context).Compiled? <==> Verify(q, context).Compiled?)
            && (RequireSupported(p).Compiled? <==> RequireSupported(q).Compiled?)
            && BuildExecutable(p, extensionAvailable) == BuildExecutable(q, extensionAvailable)
  {
  }

  /** A concrete sum program on two ranks: it compiles, and every rank gets 1 where the sum is 2. */
  lemma {:induction false} SumProgramGetsMean(r: nat)
    requires r < 2
    ensures var context := Context(0, 2, [1], FP32, "cuda", "node_ids=0,0");
            var program := Program(ReduceSum, FullTensor(FP32), FullPrecision(FP32), NativeAllReduce, NoFeedback);
            var xs := [[1.0], [1.0]];
            && Compile(program, context, None, true).Compiled?
            && Compile(program, context, None, true).value.executable == NativeExecutable
            && EndsOn(NativeExecutable, Verbatim(64, FP32), FP32, 1, xs, r) == Returned([1.0])
            && Sum(Column(xs, 1, 0)) == 2.0
  {
    var xs := [[1.0], [1.0]];
    assert Column(xs, 1, 0) == [] + [1.0] + [1.0];
    SumAppend([] + [1.0], 1.0);
    SumAppend([], 1.0);
    hide Sum;
    assert MeanOf(xs, 1) == [1.0];
  }

  /** A sum program therefore receives the sum of an element exactly on one rank or where the sum is zero. */
  lemma {:induction false} MeanIsSumIff(xs: seq<seq<real>>, numel: nat, i: nat)
    requires |xs| > 0 && Uniform(xs, numel) && i < numel
    ensures MeanOf(xs, numel)[i] == Sum(Column(xs, numel, i))
       <==> |xs| == 1 || Sum(Column(xs, numel, i)) == 0.0
  {
    var s, w := Sum(Column(xs, numel, i)), |xs| as real;
    var m := s / w;
    assert m * w == s;
    if m == s && |xs| > 1 {
      assert s * (w - 1.0) == 0.0;
    }
  }
}
