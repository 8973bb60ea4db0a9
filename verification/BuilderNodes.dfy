/** `BuilderBase._create_nodes`: the temporary builder that targets carry while an emitter runs. */
module BuilderNodes {
  import opened Std

  /** A builder, by identity. */
  type Id = nat

  /** A target node, as far as builders go. */
  class Node {
    var builder: Option<Id>
    var executor: Option<nat>
    const sideEffect: bool

    constructor (builder: Option<Id>, executor: Option<nat>, sideEffect: bool)
      ensures this.builder == builder && this.executor == executor && this.sideEffect == sideEffect
    {
      this.builder, this.executor, this.sideEffect := builder, executor, sideEffect;
    }

    /** `is_derived`. */
    predicate IsDerived()
      reads this
    {
      builder.Some? || sideEffect
    }

    /** `builder_set`: the executor is forgotten. */
    method BuilderSet(b: Option<Id>)
      modifies this
      ensures builder == b && executor == None
    {
      builder, executor := b, None;
    }
  }

  /** The builder and the executor of every node. */
  datatype Attr = Attr(builder: Option<Id>, executor: Option<nat>)

  type Table = map<Node, Attr>

  ghost function TableOf(nodes: set<Node>): Table
    reads nodes
  {
    map n | n in nodes :: Attr(n.builder, n.executor)
  }

  ghost predicate New(before: Table, n: Node) { n in before && before[n].builder == None && !n.sideEffect }

  /** What the emitter sees. */
  ghost function Attached(before: Table, tlist: seq<Node>, self: Id): Table {
    map n | n in before :: if n in tlist && New(before, n) then Attr(Some(self), None) else before[n]
  }

  /** What is left when the temporary builders are gone. */
  ghost function Detached(before: Table, tlist: seq<Node>, self: Id, emitted: Table): Table
    requires emitted.Keys == before.Keys
  {
    map n | n in before ::
      if n in tlist && New(before, n) && emitted[n].builder == Some(self) then Attr(None, None) else emitted[n]
  }

  /** The loop before the emitter runs. */
  method Attach(ghost nodes: set<Node>, tlist: seq<Node>, self: Id) returns (newTargets: seq<Node>)
    requires forall t | t in tlist :: t in nodes
    modifies nodes
    ensures TableOf(nodes) == Attached(old(TableOf(nodes)), tlist, self)
    ensures forall n :: n in newTargets <==> n in tlist && New(old(TableOf(nodes)), n)
    ensures forall t | t in tlist :: t.IsDerived()
    ensures forall i, j | 0 <= i < j < |newTargets| :: newTargets[i] != newTargets[j]
  {
    newTargets := [];
    ghost var before := TableOf(nodes);
    var i := 0;
    while i < |tlist|
      invariant 0 <= i <= |tlist|
      invariant forall n | n in nodes :: Attr(n.builder, n.executor) ==
                  if n in tlist[..i] && New(before, n) then Attr(Some(self), None) else before[n]
      invariant forall n :: n in newTargets <==> n in tlist[..i] && New(before, n)
      invariant forall i, j | 0 <= i < j < |newTargets| :: newTargets[i] != newTargets[j]
    {
      var t := tlist[i];
      assert tlist[..i + 1] == tlist[..i] + [t];
      if !t.IsDerived() {
        t.BuilderSet(Some(self));
        newTargets := newTargets + [t];
      }
      i := i + 1;
    }
    assert tlist[..i] == tlist;
  }

  /** The loop after the emitter has run. */
  method Detach(ghost nodes: set<Node>, newTargets: seq<Node>, self: Id)
    requires forall t | t in newTargets :: t in nodes
    modifies nodes
    ensures forall n | n in nodes :: Attr(n.builder, n.executor) ==
              if n in newTargets && old(n.builder) == Some(self) then Attr(None, None) else old(Attr(n.builder, n.executor))
  {
    var i := 0;
    while i < |newTargets|
      invariant 0 <= i <= |newTargets|
      invariant forall n | n in nodes :: Attr(n.builder, n.executor) ==
                  if n in newTargets[..i] && old(n.builder) == Some(self) then Attr(None, None)
                  else old(Attr(n.builder, n.executor))
    {
      var t := newTargets[i];
      assert newTargets[..i + 1] == newTargets[..i] + [t];
      if t.builder == Some(self) {
        t.BuilderSet(None);
      }
      i := i + 1;
    }
    assert newTargets[..i] == newTargets;
  }

  /** An emitter: any change to the nodes that depends on what it finds. */
  method Emit(nodes: seq<Node>, emitted: Table)
    requires forall n | n in nodes :: n in emitted
    modifies nodes
    ensures forall n | n in nodes :: Attr(n.builder, n.executor) == emitted[n]
  {
    var i := 0;
    while i < |nodes|
      invariant 0 <= i <= |nodes|
      invariant forall n | n in nodes[..i] :: Attr(n.builder, n.executor) == emitted[n]
    {
      var n := nodes[i];
      assert nodes[..i + 1] == nodes[..i] + [n];
      n.builder, n.executor := emitted[n].builder, emitted[n].executor;
      i := i + 1;
    }
    assert nodes[..i] == nodes;
  }

  /** The builders when the call ends: when the emitter raises an exception nothing is taken off. */
  ghost function Outcome(before: Table, tlist: seq<Node>, self: Id, emitted: Table, raises: bool): Table
    requires emitted.Keys == before.Keys
  {
    if raises then emitted else Detached(before, tlist, self, emitted)
  }

  /** The part of `_create_nodes` around the emitter.  `emitted` is what the emitter leaves, whatever
      that is, when it returns or raises an exception; `nodes` lists every node it can reach. */
  method CreateNodes(nodes: seq<Node>, tlist: seq<Node>, self: Id, emitted: Table, raises: bool) returns (raised: bool)
    requires (forall t | t in tlist :: t in nodes) && (forall n :: n in nodes <==> n in emitted)
    modifies nodes
    ensures raised == raises
    ensures TableOf(All(nodes)) == Outcome(old(TableOf(All(nodes))), tlist, self, emitted, raises)
    ensures forall n | n in nodes && n in tlist && New(old(TableOf(All(nodes))), n) ::
              n.builder == Some(self) <==> raises && emitted[n].builder == Some(self)
    ensures forall n | n in nodes && n.builder == Some(self) :: emitted[n].builder == Some(self)
  {
    ghost var before := TableOf(All(nodes));
    var newTargets := Attach(All(nodes), tlist, self);
    Emit(nodes, emitted);
    if raises { return true; }
    Detach(All(nodes), newTargets, self);
    raised := false;
  }

  ghost function All(nodes: seq<Node>): set<Node> { set n | n in nodes }

  /** A node that is not among the targets, or was already derived, is as the emitter left it, and the
      emitter found it as it was, however often it is listed. */
  lemma DerivedUntouched(before: Table, tlist: seq<Node>, self: Id, n: Node)
    requires n in before
    ensures n !in tlist || !New(before, n) <==>
            forall e: Table | e.Keys == before.Keys :: Detached(before, tlist, self, e)[n] == e[n]
  {
    if n in tlist && New(before, n) {
      var e := before[n := Attr(Some(self), None)];
      assert e.Keys == before.Keys;
      assert Detached(before, tlist, self, e)[n] != e[n];
    }
  }

  /** A new target has no builder afterwards exactly when the emitter left it none or the temporary
      one; so an emitter that gives it this very builder on purpose finds that undone. */
  lemma NewTargetExactly(before: Table, tlist: seq<Node>, self: Id, emitted: Table, n: Node)
    requires emitted.Keys == before.Keys && n in tlist && New(before, n)
    ensures var after := Detached(before, tlist, self, emitted)[n];
            && (after.builder == None <==> emitted[n].builder == None || emitted[n].builder == Some(self))
            && (after == emitted[n] <==> emitted[n].builder != Some(self))
            && after.builder != Some(self)
  {
  }

  /** An emitter that leaves the nodes alone: every builder is what it was before the call, and the
      executor is lost exactly on the targets that had no builder. */
  lemma HarmlessEmitter(before: Table, tlist: seq<Node>, self: Id)
    ensures var after := Detached(before, tlist, self, Attached(before, tlist, self));
            forall n | n in before ::
              && after[n].builder == before[n].builder
              && (after[n].executor == before[n].executor <==>
                  before[n].executor == None || n !in tlist || !New(before, n))
  {
  }

  /** Whatever the emitter does and however it ends: a new target ends with the temporary builder exactly
      when the emitter raised and had left it there.  The builder of any other node is what the emitter
      left, so no node gains the builder from this code but the new targets, for the time the emitter
      runs.  Some emitter makes the temporary builder outlive the call exactly when emitters can raise. */
  lemma RaisingEmitterExactly(before: Table, tlist: seq<Node>, self: Id, emitted: Table, raises: bool, n: Node)
    requires emitted.Keys == before.Keys && n in before
    ensures var after := Outcome(before, tlist, self, emitted, raises);
            && (n in tlist && New(before, n) ==>
                  (after[n].builder == Some(self) <==> raises && emitted[n].builder == Some(self)))
            && (!(n in tlist && New(before, n)) ==>
                  after[n] == emitted[n] && Attached(before, tlist, self)[n] == before[n])
    ensures n in tlist && New(before, n) ==>
              (raises <==> exists e: Table | e.Keys == before.Keys :: Outcome(before, tlist, self, e, raises)[n].builder == Some(self))
  {
    var e := Attached(before, tlist, self);
    assert e.Keys == before.Keys;
    assert n in tlist && New(before, n) && raises ==> Outcome(before, tlist, self, e, raises)[n].builder == Some(self);
  }
}
