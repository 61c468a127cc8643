/**
The training state as five artifacts: four tensors' worth of bytes and a runtime
object. Floats are their bit patterns.
*/
module StateCodec {
  import opened Bpe
  import opened Outcomes
  import opened ParameterLayout
  import opened WordBytes
  import JsonText

  const RUNTIME_SCHEMA: nat := 1
  const GRAPH_SEMANTICS: nat := 1

  datatype StateError = DimensionsInvalid | ArtifactInvalid | RuntimeInvalid | LayoutMismatch | OptimizerInvalid

  datatype Parameter = Parameter(
    name: Name, decay: bool, master: seq<nat>, bf16: seq<nat>, first: seq<nat>, second: seq<nat>)

  datatype State = State(
    dimensions: Dimensions, identity: nat, parameters: seq<Parameter>, host: seq<Byte>, device: seq<Byte>,
    batches: nat)

  datatype Runtime = Runtime(
    schema: nat, identity: nat, semantics: nat, layout: nat, host: string, device: string, batches: nat)

  datatype Role = Storage | Master | FirstMoments | SecondMoments | RuntimeState

  datatype Artifact = Artifact(role: Role, path: nat, bytes: seq<Byte>)

  /** The closed path of a role. */
  function PathOf(role: Role): nat {
    match role
    case Storage => 0
    case Master => 1
    case FirstMoments => 2
    case SecondMoments => 3
    case RuntimeState => 4
  }

  /** What the codec relies on elsewhere: reading and writing the runtime object, the
      hash of a layout, and which bit patterns are finite and how they round. */
  datatype Services = Services(
    parse: seq<Byte> -> Option<Runtime>, written: Runtime -> seq<Byte>, layoutHash: Dimensions -> nat,
    finite: nat -> bool, rounded: nat -> nat)
  {
    ghost predicate Sound() {
      forall r: Runtime :: parse(written(r)) == Some(r)
    }
  }

  // ----- a state the optimizer accepts -----

  predicate Usable(p: Parameter, services: Services) {
    && p.master != [] && |p.bf16| == |p.first| == |p.second| == |p.master|
    && (forall i :: 0 <= i < |p.master| ==>
          services.finite(p.master[i]) && services.finite(p.first[i]) && services.finite(p.second[i]))
    && forall i :: 0 <= i < |p.master| ==> services.rounded(p.master[i]) == p.bf16[i]
  }

  predicate Matches(p: Parameter, t: Tensor) {
    p.name == t.name && |p.master| == t.elements && p.decay == Decays(t.name)
  }

  predicate AllMatch(parameters: seq<Parameter>, layout: seq<Tensor>) {
    |parameters| == |layout| && forall i :: 0 <= i < |layout| ==> Matches(parameters[i], layout[i])
  }

  predicate OptimizerAccepts(parameters: seq<Parameter>, services: Services) {
    && parameters != [] && (forall i :: 0 <= i < |parameters| ==> Usable(parameters[i], services))
    && forall i, j :: 0 <= i < j < |parameters| ==> parameters[i].name != parameters[j].name
  }

  /** Builds a state, refusing a layout or optimizer state that does not fit. */
  function NewState(d: Dimensions, identity: nat, parameters: seq<Parameter>, host: seq<Byte>, device: seq<Byte>,
      batches: nat, services: Services): Result<State, StateError>
  {
    if !d.Valid() then Err(DimensionsInvalid)
    else if !AllMatch(parameters, Layout(d)) then Err(LayoutMismatch)
    else if !OptimizerAccepts(parameters, services) then Err(OptimizerInvalid)
    else Ok(State(d, identity, parameters, host, device, batches))
  }

  // ----- witness states as text -----

  function Hex(bytes: seq<Byte>): (s: string)
    ensures |s| == 2 * |bytes|
  {
    if bytes == [] then "" else [JsonText.HexDigit(bytes[0] / 16), JsonText.HexDigit(bytes[0] % 16)] + Hex(bytes[1..])
  }

  /** The bytes of a text that is exactly the lowercase hexadecimal of 32 bytes. */
  function DecodeWitness(s: string): Option<seq<Byte>> {
    if |s| % 2 != 0 || exists i :: 0 <= i < |s| && !JsonText.IsHex(s[i]) then None
    else
      var bytes := Unhex(s);
      if |bytes| != 32 || Hex(bytes) != s then None else Some(bytes)
  }

  function Unhex(s: string): seq<Byte>
    requires |s| % 2 == 0 && forall i :: 0 <= i < |s| ==> JsonText.IsHex(s[i])
  {
    if s == "" then [] else [16 * JsonText.HexValue(s[0]) + JsonText.HexValue(s[1])] + Unhex(s[2..])
  }

  lemma {:induction false} HexReadsBack(bytes: seq<Byte>)
    ensures forall i :: 0 <= i < |Hex(bytes)| ==> JsonText.IsHex(Hex(bytes)[i])
    ensures Unhex(Hex(bytes)) == bytes
  {
    if bytes != [] {
      HexReadsBack(bytes[1..]);
      assert Hex(bytes)[2..] == Hex(bytes[1..]);
    }
  }

  /** Witness states survive, and only their own text is accepted for them. */
  lemma {:induction false} WitnessReadsBack(bytes: seq<Byte>, s: string)
    ensures DecodeWitness(s) == Some(bytes) <==> |bytes| == 32 && s == Hex(bytes)
  {
    HexReadsBack(bytes);
  }

  // ----- joining and cutting -----

  function Joined(lists: seq<seq<nat>>): seq<nat> {
    if lists == [] then [] else Joined(lists[..|lists| - 1]) + lists[|lists| - 1]
  }

  function Masters(ps: seq<Parameter>): (r: seq<seq<nat>>)
    ensures |r| == |ps|
  {
    seq(|ps|, i requires 0 <= i < |ps| => ps[i].master)
  }

  function Storages(ps: seq<Parameter>): (r: seq<seq<nat>>)
    ensures |r| == |ps|
  {
    seq(|ps|, i requires 0 <= i < |ps| => ps[i].bf16)
  }

  function Firsts(ps: seq<Parameter>): (r: seq<seq<nat>>)
    ensures |r| == |ps|
  {
    seq(|ps|, i requires 0 <= i < |ps| => ps[i].first)
  }

  function Seconds(ps: seq<Parameter>): (r: seq<seq<nat>>)
    ensures |r| == |ps|
  {
    seq(|ps|, i requires 0 <= i < |ps| => ps[i].second)
  }

  /** Where the n-th tensor starts. */
  function Start(layout: seq<Tensor>, n: nat): nat
    requires n <= |layout|
  {
    if n == 0 then 0 else Start(layout, n - 1) + layout[n - 1].elements
  }

  lemma {:induction false} StartRises(layout: seq<Tensor>, m: nat, n: nat)
    requires m <= n <= |layout|
    ensures Start(layout, m) <= Start(layout, n)
    decreases n - m
  {
    if m < n {
      StartRises(layout, m, n - 1);
    }
  }

  /** The n-th tensor's stretch of the values. */
  function Cut(values: seq<nat>, layout: seq<Tensor>, n: nat): seq<nat>
    requires n < |layout| && |values| == Start(layout, |layout|)
  {
    StartRises(layout, n + 1, |layout|);
    values[Start(layout, n)..Start(layout, n + 1)]
  }

  ghost predicate Fitted(lists: seq<seq<nat>>, layout: seq<Tensor>) {
    |lists| == |layout| && forall i :: 0 <= i < |layout| ==> |lists[i]| == layout[i].elements
  }

  lemma {:induction false} JoinedNext(lists: seq<seq<nat>>, n: nat)
    requires n < |lists|
    ensures Joined(lists[..n + 1]) == Joined(lists[..n]) + lists[n]
  {
    assert lists[..n + 1][..n] == lists[..n];
  }

  lemma {:induction false} JoinedLength(lists: seq<seq<nat>>, layout: seq<Tensor>, n: nat)
    requires Fitted(lists, layout) && n <= |lists|
    ensures |Joined(lists[..n])| == Start(layout, n)
    decreases n
  {
    if n > 0 {
      JoinedNext(lists, n - 1);
      JoinedLength(lists, layout, n - 1);
    }
  }

  lemma {:induction false} JoinedPrefix(lists: seq<seq<nat>>, n: nat)
    requires n <= |lists|
    ensures Joined(lists[..n]) <= Joined(lists)
    decreases |lists| - n
  {
    if n < |lists| {
      JoinedNext(lists, n);
      JoinedPrefix(lists, n + 1);
    } else {
      assert lists[..n] == lists;
    }
  }

  /** Cutting joined lists gives the lists back. */
  lemma {:induction false} CutOfJoined(lists: seq<seq<nat>>, layout: seq<Tensor>, n: nat)
    requires Fitted(lists, layout) && n < |lists|
    ensures |Joined(lists)| == Start(layout, |layout|) && Cut(Joined(lists), layout, n) == lists[n]
  {
    JoinedLength(lists, layout, |lists|);
    assert lists[..|lists|] == lists;
    JoinedLength(lists, layout, n);
    JoinedLength(lists, layout, n + 1);
    JoinedNext(lists, n);
    JoinedPrefix(lists, n + 1);
    Middle(Joined(lists), Joined(lists[..n]), lists[n], Joined(lists[..n + 1]));
  }

  lemma {:induction false} Middle(all: seq<nat>, front: seq<nat>, list: seq<nat>, both: seq<nat>)
    requires both <= all && both == front + list
    ensures |both| <= |all| && all[|front|..|both|] == list
  {
    assert both[|front|..|both|] == list;
  }

  lemma {:induction false} CutExtends(values: seq<nat>, layout: seq<Tensor>, n: nat)
    requires |values| == Start(layout, |layout|) && n < |layout|
    ensures Start(layout, n) <= Start(layout, n + 1) <= |values|
    ensures values[..Start(layout, n)] + Cut(values, layout, n) == values[..Start(layout, n + 1)]
  {
    StartRises(layout, n + 1, |layout|);
  }

  /** Joining cut pieces gives the values back. */
  lemma {:induction false} JoinedOfCut(values: seq<nat>, layout: seq<Tensor>, lists: seq<seq<nat>>, n: nat)
    requires |values| == Start(layout, |layout|) && |lists| == |layout| && n <= |layout|
    requires forall i :: 0 <= i < |layout| ==> lists[i] == Cut(values, layout, i)
    ensures Start(layout, n) <= |values| && Joined(lists[..n]) == values[..Start(layout, n)]
    decreases n
  {
    StartRises(layout, n, |layout|);
    if n > 0 {
      JoinedNext(lists, n - 1);
      JoinedOfCut(values, layout, lists, n - 1);
      CutExtends(values, layout, n - 1);
    }
  }

  // ----- snapshot -----

  function RuntimeOf(s: State, services: Services): Runtime {
    Runtime(RUNTIME_SCHEMA, s.identity, GRAPH_SEMANTICS, services.layoutHash(s.dimensions), Hex(s.host),
            Hex(s.device), s.batches)
  }

  /** The five artifacts of a state. */
  function Snapshot(s: State, services: Services): seq<Artifact> {
    [Artifact(Storage, PathOf(Storage), Words(Joined(Storages(s.parameters)), 2)),
     Artifact(Master, PathOf(Master), Words(Joined(Masters(s.parameters)), 4)),
     Artifact(FirstMoments, PathOf(FirstMoments), Words(Joined(Firsts(s.parameters)), 4)),
     Artifact(SecondMoments, PathOf(SecondMoments), Words(Joined(Seconds(s.parameters)), 4)),
     Artifact(RuntimeState, PathOf(RuntimeState), services.written(RuntimeOf(s, services)))]
  }

  // ----- restore -----

  /** The bytes of the first artifact with a role, if it is at the role's path. */
  function BytesOf(artifacts: seq<Artifact>, role: Role): Option<seq<Byte>> {
    if artifacts == [] then None
    else if artifacts[0].role == role then
      if artifacts[0].path == PathOf(role) then Some(artifacts[0].bytes) else None
    else BytesOf(artifacts[1..], role)
  }

  /** The n-th tensor, cut from the four lists of values. */
  function Restored(layout: seq<Tensor>, n: nat, bf16: seq<nat>, master: seq<nat>, first: seq<nat>, second: seq<nat>)
    : Parameter
    requires n < |layout| && |bf16| == |master| == |first| == |second| == Start(layout, |layout|)
  {
    Parameter(layout[n].name, Decays(layout[n].name), Cut(master, layout, n), Cut(bf16, layout, n),
              Cut(first, layout, n), Cut(second, layout, n))
  }

  function RestoredAll(layout: seq<Tensor>, bf16: seq<nat>, master: seq<nat>, first: seq<nat>, second: seq<nat>)
    : (r: seq<Parameter>)
    requires |bf16| == |master| == |first| == |second| == Start(layout, |layout|)
    ensures |r| == |layout|
    ensures forall i :: 0 <= i < |r| ==> r[i] == Restored(layout, i, bf16, master, first, second)
  {
    seq(|layout|, i requires 0 <= i < |layout| => Restored(layout, i, bf16, master, first, second))
  }

  predicate Binds(r: Runtime, d: Dimensions, identity: nat, services: Services) {
    && r.schema == RUNTIME_SCHEMA && r.identity == identity && r.semantics == GRAPH_SEMANTICS
    && r.layout == services.layoutHash(d)
  }

  function Restore(d: Dimensions, identity: nat, artifacts: seq<Artifact>, services: Services)
    : Result<State, StateError>
  {
    if !d.Valid() then Err(DimensionsInvalid)
    else
      var text := BytesOf(artifacts, RuntimeState);
      if text.None? then Err(ArtifactInvalid)
      else
        var runtime := services.parse(text.value);
        if runtime.None? || !Binds(runtime.value, d, identity, services) then Err(RuntimeInvalid)
        else
          var host, device := DecodeWitness(runtime.value.host), DecodeWitness(runtime.value.device);
          if host.None? || device.None? then Err(RuntimeInvalid)
          else RestoreTensors(d, identity, artifacts, host.value, device.value, runtime.value.batches, services)
  }

  function RestoreTensors(d: Dimensions, identity: nat, artifacts: seq<Artifact>, host: seq<Byte>, device: seq<Byte>,
      batches: nat, services: Services): Result<State, StateError>
  {
    var layout := Layout(d);
    var n := Start(layout, |layout|);
    var bf16, master := BytesOf(artifacts, Storage), BytesOf(artifacts, Master);
    var first, second := BytesOf(artifacts, FirstMoments), BytesOf(artifacts, SecondMoments);
    if bf16.None? || master.None? || first.None? || second.None? then Err(ArtifactInvalid)
    else if |bf16.value| != Size(n, 2) || |master.value| != Size(n, 4) || |first.value| != Size(n, 4)
            || |second.value| != Size(n, 4) then Err(ArtifactInvalid)
    else
      NewState(d, identity,
               RestoredAll(layout, Read(bf16.value, 2, 0, n), Read(master.value, 4, 0, n), Read(first.value, 4, 0, n),
                           Read(second.value, 4, 0, n)),
               host, device, batches, services)
  }

  // ----- round trips -----

  /** A state as the constructor leaves it, with words of the right width. */
  ghost predicate WellFormed(s: State, services: Services) {
    && NewState(s.dimensions, s.identity, s.parameters, s.host, s.device, s.batches, services) == Ok(s)
    && |s.host| == |s.device| == 32
    && forall i :: 0 <= i < |s.parameters| ==>
         && Narrow(s.parameters[i].master, 4) && Narrow(s.parameters[i].bf16, 2)
         && Narrow(s.parameters[i].first, 4) && Narrow(s.parameters[i].second, 4)
  }

  lemma {:induction false} JoinedNarrow(lists: seq<seq<nat>>, width: nat)
    requires forall i :: 0 <= i < |lists| ==> Narrow(lists[i], width)
    ensures Narrow(Joined(lists), width)
  {
    if lists != [] {
      JoinedNarrow(lists[..|lists| - 1], width);
    }
  }

  /** One field of all tensors, joined and written, reads back. */
  lemma {:induction false} FieldReadsBack(lists: seq<seq<nat>>, layout: seq<Tensor>, width: nat)
    requires Fitted(lists, layout) && forall i :: 0 <= i < |lists| ==> Narrow(lists[i], width)
    ensures var n, b := Start(layout, |layout|), Words(Joined(lists), width);
      && |Joined(lists)| == n && |b| == Size(n, width) && Read(b, width, 0, n) == Joined(lists)
  {
    JoinedNarrow(lists, width);
    WordsReadBack(Joined(lists), width);
    JoinedLength(lists, layout, |lists|);
    assert lists[..|lists|] == lists;
  }

  lemma {:induction false} AllFitted(s: State, services: Services)
    requires WellFormed(s, services)
    ensures var layout, ps := Layout(s.dimensions), s.parameters;
      && Fitted(Masters(ps), layout) && Fitted(Storages(ps), layout) && Fitted(Firsts(ps), layout)
      && Fitted(Seconds(ps), layout)
  {
    var layout := Layout(s.dimensions);
    forall i | 0 <= i < |layout|
      ensures |s.parameters[i].master| == |s.parameters[i].bf16| == |s.parameters[i].first|
           == |s.parameters[i].second| == layout[i].elements
    {
      assert Matches(s.parameters[i], layout[i]) && Usable(s.parameters[i], services);
    }
  }

  lemma {:induction false} ParametersRestored(ps: seq<Parameter>, layout: seq<Tensor>)
    requires AllMatch(ps, layout)
    requires Fitted(Masters(ps), layout) && Fitted(Storages(ps), layout)
    requires Fitted(Firsts(ps), layout) && Fitted(Seconds(ps), layout)
    ensures var n := Start(layout, |layout|);
      && |Joined(Storages(ps))| == |Joined(Masters(ps))| == |Joined(Firsts(ps))| == |Joined(Seconds(ps))| == n
      && RestoredAll(layout, Joined(Storages(ps)), Joined(Masters(ps)), Joined(Firsts(ps)), Joined(Seconds(ps))) == ps
  {
    JoinedWhole(Masters(ps), layout);
    JoinedWhole(Storages(ps), layout);
    JoinedWhole(Firsts(ps), layout);
    JoinedWhole(Seconds(ps), layout);
    forall i | 0 <= i < |layout|
      ensures Restored(layout, i, Joined(Storages(ps)), Joined(Masters(ps)), Joined(Firsts(ps)), Joined(Seconds(ps)))
           == ps[i]
    {
      CutOfJoined(Masters(ps), layout, i);
      CutOfJoined(Storages(ps), layout, i);
      CutOfJoined(Firsts(ps), layout, i);
      CutOfJoined(Seconds(ps), layout, i);
      assert Matches(ps[i], layout[i]);
    }
  }

  lemma {:induction false} JoinedWhole(lists: seq<seq<nat>>, layout: seq<Tensor>)
    requires Fitted(lists, layout)
    ensures |Joined(lists)| == Start(layout, |layout|)
  {
    JoinedLength(lists, layout, |lists|);
    assert lists[..|lists|] == lists;
  }

  lemma {:induction false} Found(artifacts: seq<Artifact>, role: Role, k: nat)
    requires k < |artifacts| && artifacts[k].role == role && artifacts[k].path == PathOf(role)
    requires forall i :: 0 <= i < k ==> artifacts[i].role != role
    ensures BytesOf(artifacts, role) == Some(artifacts[k].bytes)
    decreases k
  {
    if k > 0 {
      Found(artifacts[1..], role, k - 1);
    }
  }

  lemma {:induction false} SnapshotBytes(s: State, services: Services)
    ensures var a := Snapshot(s, services);
      && BytesOf(a, Storage) == Some(Words(Joined(Storages(s.parameters)), 2))
      && BytesOf(a, Master) == Some(Words(Joined(Masters(s.parameters)), 4))
      && BytesOf(a, FirstMoments) == Some(Words(Joined(Firsts(s.parameters)), 4))
      && BytesOf(a, SecondMoments) == Some(Words(Joined(Seconds(s.parameters)), 4))
      && BytesOf(a, RuntimeState) == Some(services.written(RuntimeOf(s, services)))
  {
    var a := Snapshot(s, services);
    Found(a, Storage, 0);
    Found(a, Master, 1);
    Found(a, FirstMoments, 2);
    Found(a, SecondMoments, 3);
    Found(a, RuntimeState, 4);
  }

  lemma {:induction false} FieldsReadBack(s: State, services: Services)
    requires WellFormed(s, services)
    ensures var layout, ps := Layout(s.dimensions), s.parameters;
      var n := Start(layout, |layout|);
      var bf16, master := Words(Joined(Storages(ps)), 2), Words(Joined(Masters(ps)), 4);
      var first, second := Words(Joined(Firsts(ps)), 4), Words(Joined(Seconds(ps)), 4);
      && |bf16| == Size(n, 2) && |master| == Size(n, 4) && |first| == Size(n, 4) && |second| == Size(n, 4)
      && RestoredAll(layout, Read(bf16, 2, 0, n), Read(master, 4, 0, n), Read(first, 4, 0, n), Read(second, 4, 0, n)) == ps
  {
    var layout, ps := Layout(s.dimensions), s.parameters;
    AllFitted(s, services);
    FieldReadsBack(Storages(ps), layout, 2);
    FieldReadsBack(Masters(ps), layout, 4);
    FieldReadsBack(Firsts(ps), layout, 4);
    FieldReadsBack(Seconds(ps), layout, 4);
    ParametersRestored(ps, layout);
  }

  lemma {:induction false} RestoreTensorsOfSnapshot(s: State, artifacts: seq<Artifact>, services: Services)
    requires WellFormed(s, services)
    requires BytesOf(artifacts, Storage) == Some(Words(Joined(Storages(s.parameters)), 2))
    requires BytesOf(artifacts, Master) == Some(Words(Joined(Masters(s.parameters)), 4))
    requires BytesOf(artifacts, FirstMoments) == Some(Words(Joined(Firsts(s.parameters)), 4))
    requires BytesOf(artifacts, SecondMoments) == Some(Words(Joined(Seconds(s.parameters)), 4))
    ensures RestoreTensors(s.dimensions, s.identity, artifacts, s.host, s.device, s.batches, services) == Ok(s)
  {
    FieldsReadBack(s, services);
  }

  lemma {:induction false} RuntimeReadsBack(s: State, services: Services)
    requires WellFormed(s, services) && services.Sound()
    ensures var r := RuntimeOf(s, services);
      && services.parse(services.written(r)) == Some(r) && Binds(r, s.dimensions, s.identity, services)
      && DecodeWitness(r.host) == Some(s.host) && DecodeWitness(r.device) == Some(s.device)
  {
    WitnessReadsBack(s.host, Hex(s.host));
    WitnessReadsBack(s.device, Hex(s.device));
  }

  /** Restoring a snapshot rebuilds the state, tensor by tensor and bit by bit. */
  lemma {:induction false} RestoreOfSnapshot(s: State, services: Services)
    requires WellFormed(s, services) && services.Sound()
    ensures Restore(s.dimensions, s.identity, Snapshot(s, services), services) == Ok(s)
  {
    SnapshotBytes(s, services);
    RuntimeReadsBack(s, services);
    RestoreTensorsOfSnapshot(s, Snapshot(s, services), services);
  }

  // ----- what an accepted artifact set says -----

  lemma {:induction false} CutsJoin(values: seq<nat>, layout: seq<Tensor>, lists: seq<seq<nat>>)
    requires |values| == Start(layout, |layout|) && |lists| == |layout|
    requires forall i :: 0 <= i < |layout| ==> lists[i] == Cut(values, layout, i)
    ensures Joined(lists) == values
  {
    JoinedOfCut(values, layout, lists, |layout|);
    assert lists[..|lists|] == lists;
  }

  lemma {:induction false} RestoredJoin(layout: seq<Tensor>, bf16: seq<nat>, master: seq<nat>, first: seq<nat>, second: seq<nat>)
    requires |bf16| == |master| == |first| == |second| == Start(layout, |layout|)
    ensures var ps := RestoredAll(layout, bf16, master, first, second);
      && Joined(Storages(ps)) == bf16 && Joined(Masters(ps)) == master
      && Joined(Firsts(ps)) == first && Joined(Seconds(ps)) == second
  {
    var ps := RestoredAll(layout, bf16, master, first, second);
    CutsJoin(bf16, layout, Storages(ps));
    CutsJoin(master, layout, Masters(ps));
    CutsJoin(first, layout, Firsts(ps));
    CutsJoin(second, layout, Seconds(ps));
  }

  lemma {:induction false} FieldsWriteBack(layout: seq<Tensor>, n: nat, bf16: seq<Byte>, master: seq<Byte>,
      first: seq<Byte>, second: seq<Byte>)
    requires n == Start(layout, |layout|) && |bf16| == Size(n, 2)
    requires |master| == Size(n, 4) && |first| == Size(n, 4) && |second| == Size(n, 4)
    ensures var ps := RestoredAll(layout, Read(bf16, 2, 0, n), Read(master, 4, 0, n), Read(first, 4, 0, n), Read(second, 4, 0, n));
      && Words(Joined(Storages(ps)), 2) == bf16 && Words(Joined(Masters(ps)), 4) == master
      && Words(Joined(Firsts(ps)), 4) == first && Words(Joined(Seconds(ps)), 4) == second
  {
    ReadWritesBack(bf16, 2, n);
    ReadWritesBack(master, 4, n);
    ReadWritesBack(first, 4, n);
    ReadWritesBack(second, 4, n);
    RestoredJoin(layout, Read(bf16, 2, 0, n), Read(master, 4, 0, n), Read(first, 4, 0, n), Read(second, 4, 0, n));
  }

  /** The four byte strings are those of the parameters. */
  ghost predicate HoldsTensors(artifacts: seq<Artifact>, ps: seq<Parameter>) {
    && BytesOf(artifacts, Storage) == Some(Words(Joined(Storages(ps)), 2))
    && BytesOf(artifacts, Master) == Some(Words(Joined(Masters(ps)), 4))
    && BytesOf(artifacts, FirstMoments) == Some(Words(Joined(Firsts(ps)), 4))
    && BytesOf(artifacts, SecondMoments) == Some(Words(Joined(Seconds(ps)), 4))
  }

  lemma {:induction false} RestoredHolds(layout: seq<Tensor>, n: nat, artifacts: seq<Artifact>, bf16: seq<Byte>,
      master: seq<Byte>, first: seq<Byte>, second: seq<Byte>)
    requires BytesOf(artifacts, Storage) == Some(bf16) && BytesOf(artifacts, Master) == Some(master)
    requires BytesOf(artifacts, FirstMoments) == Some(first) && BytesOf(artifacts, SecondMoments) == Some(second)
    requires n == Start(layout, |layout|) && |bf16| == Size(n, 2)
    requires |master| == Size(n, 4) && |first| == Size(n, 4) && |second| == Size(n, 4)
    ensures HoldsTensors(artifacts, RestoredAll(layout, Read(bf16, 2, 0, n), Read(master, 4, 0, n),
                                                Read(first, 4, 0, n), Read(second, 4, 0, n)))
  {
    FieldsWriteBack(layout, n, bf16, master, first, second);
  }

  lemma {:induction false} RestoredTensors(d: Dimensions, identity: nat, artifacts: seq<Artifact>, host: seq<Byte>,
      device: seq<Byte>, batches: nat, services: Services)
    requires RestoreTensors(d, identity, artifacts, host, device, batches, services).Ok?
    ensures var s := RestoreTensors(d, identity, artifacts, host, device, batches, services).value;
      && HoldsTensors(artifacts, s.parameters)
      && s.dimensions == d && s.identity == identity && s.host == host && s.device == device && s.batches == batches
  {
    var n := Start(Layout(d), |Layout(d)|);
    RestoredHolds(Layout(d), n, artifacts, BytesOf(artifacts, Storage).value, BytesOf(artifacts, Master).value,
                  BytesOf(artifacts, FirstMoments).value, BytesOf(artifacts, SecondMoments).value);
  }

  /** Whatever artifacts are accepted, the state they give snapshots to the same four
      byte strings and the same runtime object. */
  lemma {:induction false} SnapshotOfRestore(d: Dimensions, identity: nat, artifacts: seq<Artifact>, services: Services)
    requires Restore(d, identity, artifacts, services).Ok?
    ensures var s := Restore(d, identity, artifacts, services).value;
      var again := Snapshot(s, services);
      && BytesOf(again, Storage) == BytesOf(artifacts, Storage)
      && BytesOf(again, Master) == BytesOf(artifacts, Master)
      && BytesOf(again, FirstMoments) == BytesOf(artifacts, FirstMoments)
      && BytesOf(again, SecondMoments) == BytesOf(artifacts, SecondMoments)
      && services.parse(BytesOf(artifacts, RuntimeState).value) == Some(RuntimeOf(s, services))
  {
    var runtime := services.parse(BytesOf(artifacts, RuntimeState).value).value;
    var host, device := DecodeWitness(runtime.host).value, DecodeWitness(runtime.device).value;
    RestoredTensors(d, identity, artifacts, host, device, runtime.batches, services);
    SnapshotBytes(Restore(d, identity, artifacts, services).value, services);
  }

  // ----- the loops -----

  // One more tensor's field appended.
  lemma {:induction false} FieldAppended(lists: seq<seq<nat>>, i: nat, width: nat)
    requires i < |lists|
    ensures Words(Joined(lists[..i + 1]), width) == Words(Joined(lists[..i]), width) + Words(lists[i], width)
  {
    JoinedNext(lists, i);
    WordsJoin(Joined(lists[..i]), lists[i], width);
  }

  /** Writes one field of every tensor, in order. */
  method WriteField(lists: seq<seq<nat>>, width: nat) returns (bytes: seq<Byte>)
    ensures bytes == Words(Joined(lists), width)
  {
    bytes := [];
    var i := 0;
    while i < |lists|
      invariant i <= |lists| && bytes == Words(Joined(lists[..i]), width)
    {
      FieldAppended(lists, i, width);
      bytes := AppendWords(bytes, lists[i], width);
      i := i + 1;
    }
    assert lists[..i] == lists;
  }

  method SnapshotArtifacts(s: State, services: Services) returns (artifacts: seq<Artifact>)
    ensures artifacts == Snapshot(s, services)
  {
    var bf16 := WriteField(Storages(s.parameters), 2);
    var master := WriteField(Masters(s.parameters), 4);
    var first := WriteField(Firsts(s.parameters), 4);
    var second := WriteField(Seconds(s.parameters), 4);
    artifacts := [Artifact(Storage, PathOf(Storage), bf16), Artifact(Master, PathOf(Master), master),
                  Artifact(FirstMoments, PathOf(FirstMoments), first),
                  Artifact(SecondMoments, PathOf(SecondMoments), second),
                  Artifact(RuntimeState, PathOf(RuntimeState), services.written(RuntimeOf(s, services)))];
  }

  /** Cuts the tensors from the four byte strings at a running offset. */
  method ReadTensors(layout: seq<Tensor>, bf16: seq<Byte>, master: seq<Byte>, first: seq<Byte>, second: seq<Byte>,
      ghost n: nat)
    returns (parameters: seq<Parameter>)
    requires n == Start(layout, |layout|) && |bf16| == Size(n, 2)
    requires |master| == Size(n, 4) && |first| == Size(n, 4) && |second| == Size(n, 4)
    ensures parameters == RestoredAll(layout, Read(bf16, 2, 0, n), Read(master, 4, 0, n), Read(first, 4, 0, n), Read(second, 4, 0, n))
  {
    ghost var whole := RestoredAll(layout, Read(bf16, 2, 0, n), Read(master, 4, 0, n), Read(first, 4, 0, n), Read(second, 4, 0, n));
    parameters := [];
    var offset := 0;
    var i := 0;
    while i < |layout|
      invariant i <= |layout| && offset == Start(layout, i) && parameters == whole[..i]
    {
      StartRises(layout, i + 1, |layout|);
      var p := ReadTensor(layout[i], offset, bf16, master, first, second, n);
      assert p == whole[i];
      parameters := parameters + [p];
      offset := offset + layout[i].elements;
      i := i + 1;
    }
  }

  method ReadTensor(t: Tensor, offset: nat, bf16: seq<Byte>, master: seq<Byte>, first: seq<Byte>, second: seq<Byte>,
      ghost n: nat)
    returns (p: Parameter)
    requires offset + t.elements <= n && |bf16| == Size(n, 2)
    requires |master| == Size(n, 4) && |first| == Size(n, 4) && |second| == Size(n, 4)
    ensures p.name == t.name && p.decay == Decays(t.name)
    ensures p.master == Read(master, 4, 0, n)[offset..offset + t.elements]
    ensures p.bf16 == Read(bf16, 2, 0, n)[offset..offset + t.elements]
    ensures p.first == Read(first, 4, 0, n)[offset..offset + t.elements]
    ensures p.second == Read(second, 4, 0, n)[offset..offset + t.elements]
  {
    var b := ReadFrom(bf16, 2, offset, t.elements, n);
    var m := ReadFrom(master, 4, offset, t.elements, n);
    var f := ReadFrom(first, 4, offset, t.elements, n);
    var s := ReadFrom(second, 4, offset, t.elements, n);
    p := Parameter(t.name, Decays(t.name), m, b, f, s);
  }

  method RestoreArtifacts(d: Dimensions, identity: nat, artifacts: seq<Artifact>, services: Services)
    returns (r: Result<State, StateError>)
    ensures r == Restore(d, identity, artifacts, services)
  {
    if !d.Valid() {
      return Err(DimensionsInvalid);
    }
    var text := BytesOf(artifacts, RuntimeState);
    if text.None? {
      return Err(ArtifactInvalid);
    }
    var runtime := services.parse(text.value);
    if runtime.None? || !Binds(runtime.value, d, identity, services) {
      return Err(RuntimeInvalid);
    }
    var host, device := DecodeWitness(runtime.value.host), DecodeWitness(runtime.value.device);
    if host.None? || device.None? {
      return Err(RuntimeInvalid);
    }
    r := RestoreCut(d, identity, artifacts, host.value, device.value, runtime.value.batches, services);
  }

  method RestoreCut(d: Dimensions, identity: nat, artifacts: seq<Artifact>, host: seq<Byte>, device: seq<Byte>,
      batches: nat, services: Services)
    returns (r: Result<State, StateError>)
    ensures r == RestoreTensors(d, identity, artifacts, host, device, batches, services)
  {
    var layout := BuildLayout(d);
    var n := Start(layout, |layout|);
    var bf16, master := BytesOf(artifacts, Storage), BytesOf(artifacts, Master);
    var first, second := BytesOf(artifacts, FirstMoments), BytesOf(artifacts, SecondMoments);
    if bf16.None? || master.None? || first.None? || second.None? {
      return Err(ArtifactInvalid);
    }
    if |bf16.value| != Size(n, 2) || |master.value| != Size(n, 4) || |first.value| != Size(n, 4)
       || |second.value| != Size(n, 4)
    {
      return Err(ArtifactInvalid);
    }
    var parameters := ReadTensors(layout, bf16.value, master.value, first.value, second.value, n);
    r := NewState(d, identity, parameters, host, device, batches, services);
  }
}
