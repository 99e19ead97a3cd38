/** The contract between a stream transport and the layer on top of it. */
module StreamLayer {
  import opened Bytes

  datatype Option<+T> = None | Some(value: T)

  /** The thresholds of `receive_policy`. */
  datatype Policy = Policy(minSize: nat, maxSize: nat)

  function Between(minSize: nat, maxSize: nat): Policy {
    Policy(minSize, maxSize)
  }

  function Exactly(size: nat): Policy {
    Policy(size, size)
  }

  function UpTo(maxSize: nat): Policy {
    Policy(1, maxSize)
  }

  function Stop(): Policy {
    Policy(0, 0)
  }

  /** One call to `consume`: the layer's new state, the reported number of bytes, what the layer left in the input
      span, the last policy it configured (if any) and the bytes it appended to the output buffer. `bare` tells that
      it has called `begin_output` whether or not it has appended anything. */
  datatype Outcome<+S> = Outcome(state: S, consumed: int, input: seq<byte>, policy: Option<Policy>, output: seq<byte>,
                                 bare: bool)

  /** An upper layer: `consume(state, bytes, delta)`, `prepareSend` and `doneSending`. */
  datatype Layer<!S> = Layer(consume: (S, seq<byte>, seq<byte>) -> Outcome<S>,
                             prepareSend: S -> Sending<S>,
                             doneSending: S -> bool)

  datatype Sending<+S> = Sending(state: S, output: seq<byte>, bare: bool, ok: bool)

  /** What the transport relies on: a layer consumes at most what it is given and only writes to bytes it consumes. */
  ghost predicate WellBehavedAt<S>(layer: Layer<S>, s: S, bytes: seq<byte>, delta: seq<byte>) {
    var o := layer.consume(s, bytes, delta);
    && o.consumed <= |bytes|
    && |o.input| == |bytes|
    && (0 <= o.consumed ==> o.input[o.consumed..] == bytes[o.consumed..])
  }

  ghost predicate WellBehaved<S(!new)>(layer: Layer<S>) {
    forall s, bytes, delta :: WellBehavedAt(layer, s, bytes, delta)
  }

  lemma Behaves<S(!new)>(layer: Layer<S>, s: S, bytes: seq<byte>, delta: seq<byte>)
    requires WellBehaved(layer)
    ensures var o := layer.consume(s, bytes, delta);
            && o.consumed <= |bytes| == |o.input|
            && forall j :: 0 <= o.consumed <= j < |bytes| ==> o.input[j] == bytes[j]
  {
    var o := layer.consume(s, bytes, delta);
    assert WellBehavedAt(layer, s, bytes, delta);
    assert forall j :: 0 <= o.consumed <= j < |bytes| ==> o.input[j] == o.input[o.consumed..][j - o.consumed];
  }

  /** How far a stream has been processed, as a function of the bytes received so far alone. */
  datatype Progress<+V> = Progress(state: V, consumed: nat, policy: Policy, failed: bool)

  function PolicyAfter<S>(o: Outcome<S>, policy: Policy): Policy {
    if o.policy.Some? then o.policy.value else policy
  }

  /** If the layer's view stands where `spec` says after `r`, and `b` arrives next, then it stands where `spec` says
      after `r + b`: below the minimum nothing may happen, and otherwise the call the transport makes gets there.
      The unconsumed rest always stays below the configured maximum. */
  ghost predicate RefinesAt<S, V>(layer: Layer<S>, view: S -> V, spec: seq<byte> -> Progress<V>,
                                  s: S, r: seq<byte>, b: seq<byte>, delta: seq<byte>) {
    var p, q := spec(r), spec(r + b);
    view(s) == p.state && !p.failed && p.consumed <= |r| && |r| + |b| - p.consumed <= p.policy.maxSize ==>
      var u := (r + b)[p.consumed..];
      if |u| < p.policy.minSize then q == p
      else
        var o := layer.consume(s, u, delta);
        q.state == view(o.state) && Advances(o, p.consumed, p.policy, q, |r + b|)
  }

  /** The call `o` leads from `consumed` bytes under `policy` to the progress `q` on a stream of `total` bytes. */
  predicate Advances<S, V>(o: Outcome<S>, consumed: nat, policy: Policy, q: Progress<V>, total: nat) {
    && q.failed == (o.consumed < 0)
    && (!q.failed ==>
          && q.consumed == consumed + o.consumed <= total
          && q.policy == PolicyAfter(o, policy)
          && total - q.consumed < q.policy.maxSize
          && q.policy.minSize <= q.policy.maxSize)
  }

  lemma ShowRefines<S, V>(layer: Layer<S>, view: S -> V, spec: seq<byte> -> Progress<V>, s: S, r: seq<byte>,
                          b: seq<byte>, delta: seq<byte>, p: Progress<V>, q: Progress<V>)
    requires p == spec(r) && q == spec(r + b)
    requires view(s) == p.state && !p.failed && p.consumed <= |r| && |r| + |b| - p.consumed <= p.policy.maxSize ==>
               var u := (r + b)[p.consumed..];
               if |u| < p.policy.minSize then q == p
               else
                 var o := layer.consume(s, u, delta);
                 q.state == view(o.state) && Advances(o, p.consumed, p.policy, q, |r + b|)
    ensures RefinesAt(layer, view, spec, s, r, b, delta)
  {}

  ghost predicate Refines<S(!new), V>(layer: Layer<S>, view: S -> V, spec: seq<byte> -> Progress<V>) {
    forall s, r, b, delta :: RefinesAt(layer, view, spec, s, r, b, delta)
  }

  /** Preparing to send does not touch what the view shows. */
  ghost predicate SendsAside<S(!new), V>(layer: Layer<S>, view: S -> V) {
    forall s :: view(layer.prepareSend(s).state) == view(s)
  }

  /** All output of the layer is recorded in its state, where `shipped` shows it. */
  ghost predicate Ships<S(!new)>(layer: Layer<S>, shipped: S -> seq<byte>) {
    && (forall s, bytes, delta :: ConsumeShips(layer, shipped, s, bytes, delta))
    && (forall s :: SendShips(layer, shipped, s))
  }

  predicate ConsumeShips<S>(layer: Layer<S>, shipped: S -> seq<byte>, s: S, bytes: seq<byte>, delta: seq<byte>) {
    var o := layer.consume(s, bytes, delta);
    shipped(o.state) == shipped(s) + o.output
  }

  predicate SendShips<S>(layer: Layer<S>, shipped: S -> seq<byte>, s: S) {
    var o := layer.prepareSend(s);
    shipped(o.state) == shipped(s) + o.output
  }

  lemma ConsumeAccounts<S(!new)>(layer: Layer<S>, shipped: S -> seq<byte>, s: S, bytes: seq<byte>, delta: seq<byte>,
                                 opening: seq<byte>, appended: seq<byte>)
    requires Ships(layer, shipped) ==> appended == opening + shipped(s)
    ensures var o := layer.consume(s, bytes, delta);
            Ships(layer, shipped) ==> appended + o.output == opening + shipped(o.state)
  {
    if Ships(layer, shipped) {
      assert ConsumeShips(layer, shipped, s, bytes, delta);
      Associative(opening, shipped(s), layer.consume(s, bytes, delta).output);
    }
  }

  lemma SendAccounts<S(!new)>(layer: Layer<S>, shipped: S -> seq<byte>, s: S, opening: seq<byte>, appended: seq<byte>)
    requires Ships(layer, shipped) ==> appended == opening + shipped(s)
    ensures var o := layer.prepareSend(s);
            Ships(layer, shipped) ==> appended + o.output == opening + shipped(o.state)
  {
    if Ships(layer, shipped) {
      assert SendShips(layer, shipped, s);
      Associative(opening, shipped(s), layer.prepareSend(s).output);
    }
  }

  /** A layer and its buffer stand where `spec` says after `r`: `eaten` bytes are gone, and the rest leaves room. */
  ghost predicate StandsAt<V>(spec: seq<byte> -> Progress<V>, r: seq<byte>, state: V, eaten: nat, policy: Policy,
      rejected: bool) {
    var p := spec(r);
    && state == p.state
    && rejected == p.failed
    && (!rejected ==>
          && eaten == p.consumed <= |r|
          && policy == p.policy
          && |r| - eaten < policy.maxSize
          && policy.minSize <= policy.maxSize)
  }

  /** Arriving bytes take the layer from where it stands to where it should stand next. */
  lemma StandsNext<S(!new), V>(layer: Layer<S>, view: S -> V, spec: seq<byte> -> Progress<V>,
                               r: seq<byte>, b: seq<byte>, delta: seq<byte>, state: S, eaten: nat, policy: Policy)
    requires Refines(layer, view, spec) && StandsAt(spec, r, view(state), eaten, policy, false)
    requires |r| + |b| - eaten <= policy.maxSize
    ensures var u := (r + b)[eaten..];
            if |u| < policy.minSize then StandsAt(spec, r + b, view(state), eaten, policy, false)
            else
              var o := layer.consume(state, u, delta);
              StandsAt(spec, r + b, view(o.state), if o.consumed < 0 then eaten else eaten + o.consumed,
                       PolicyAfter(o, policy), o.consumed < 0)
  {
    assert RefinesAt(layer, view, spec, state, r, b, delta);
  }
}
