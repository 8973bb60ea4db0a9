/** `OverrideEnvironment` on objects: every override refers to a live subject, reads through it, and
    writes only its own two fields.  Each method is proved against the value-level function of the
    same name in `Overrides`, so everything proved there holds of the objects, aliasing included. */
module OverrideEnv {
  import opened Std
  import opened Overrides

  class BaseEnv {
    var dict: Dict

    constructor (dict: Dict)
      ensures this.dict == dict
    {
      this.dict := dict;
    }

    method SetItem(k: Key, v: Value) returns (error: Option<Error>)
      modifies this
      ensures Outcome(Base(dict), error) == Overrides.SetItem(Base(old(dict)), k, v)
    {
      error := None;
      if k !in RESERVED {
        if k !in dict && !IsIdentifier(k) {
          error := Some(IllegalKey);
        } else {
          dict := dict[k := v];
        }
      }
    }

    method DelItem(k: Key) returns (error: Option<Error>)
      modifies this
      ensures Outcome(Base(dict), error) == Overrides.DelItem(Base(old(dict)), k)
    {
      if k in dict {
        dict := dict - {k};
        error := None;
      } else {
        error := Some(KeyError);
      }
    }
  }

  /** The environment an override wraps: it never changes, but its contents may. */
  datatype EnvRef = OfBase(base: BaseEnv) | OfOverride(env: OverrideEnvironment)

  ghost function Depth(r: EnvRef): nat {
    match r
    case OfBase(_) => 0
    case OfOverride(o) => o.depth
  }

  /** The objects an environment reads. */
  ghost function Footprint(r: EnvRef): set<object> {
    match r
    case OfBase(b) => {b}
    case OfOverride(o) => o.repr
  }

  /** The chain of subjects ends in a base environment. */
  ghost predicate Linked(r: EnvRef)
    decreases Depth(r)
  {
    match r
    case OfBase(_) => true
    case OfOverride(o) =>
      && Depth(o.subject) < o.depth && Linked(o.subject)
      && o.repr == {o} + Footprint(o.subject)
  }

  /** The environment as a value. */
  ghost function Abs(r: EnvRef): Env
    requires Linked(r)
    reads Footprint(r)
    decreases Depth(r)
  {
    match r
    case OfBase(b) => Base(b.dict)
    case OfOverride(o) => Override(Abs(o.subject), Layer(o.overrides, o.deleted))
  }

  /** No environment wraps itself. */
  lemma {:induction false} FootprintDepth(r: EnvRef, o: OverrideEnvironment)
    requires Linked(r) && o in Footprint(r)
    ensures o.depth <= Depth(r)
    decreases Depth(r)
  {
    match r
    case OfBase(_) =>
    case OfOverride(top) => if o != top { FootprintDepth(top.subject, o); }
  }

  method ReadItem(r: EnvRef, k: Key) returns (v: Option<Value>)
    requires Linked(r)
    ensures v == Lookup(Abs(r), k)
    decreases Depth(r)
  {
    match r
    case OfBase(b) => v := if k in b.dict then Some(b.dict[k]) else None;
    case OfOverride(o) => v := o.GetItem(k);
  }

  method HasItem(r: EnvRef, k: Key) returns (has: bool)
    requires Linked(r)
    ensures has <==> Contains(Abs(r), k)
    decreases Depth(r)
  {
    match r
    case OfBase(b) => has := k in b.dict;
    case OfOverride(o) => has := o.HasKey(k);
  }

  /** `d.update(env)`: Python asks for the keys, then for the value of each key. */
  method CopyOf(r: EnvRef) returns (d: Dict)
    requires Linked(r)
    ensures d == Dictionary(Abs(r))
    decreases Depth(r), 1
  {
    var keys;
    match r {
      case OfBase(b) => keys := b.dict.Keys;
      case OfOverride(o) => var all := o.AsDictionary(); keys := all.Keys;
    }
    d := map[];
    ghost var all := keys;
    ghost var want := Dictionary(Abs(r));
    while keys != {}
      invariant keys <= all == want.Keys
      invariant d.Keys == all - keys
      invariant forall k | k in d :: d[k] == want[k]
    {
      var k :| k in keys;
      var v := ReadItem(r, k);
      assert k in want;
      d := d[k := v.value];
      keys := keys - {k};
    }
  }

  method GlobalsOf(r: EnvRef) returns (d: Dict)
    requires Linked(r)
    ensures d == GlobalVars(Abs(r))
    decreases Depth(r)
  {
    match r
    case OfBase(b) => d := b.dict;
    case OfOverride(o) => d := GlobalsOf(o.subject);
  }

  method LocalsOf(r: EnvRef) returns (d: Dict)
    requires Linked(r)
    ensures d == LocalVars(Abs(r))
    decreases Depth(r)
  {
    match r
    case OfBase(b) => d := map[];
    case OfOverride(o) =>
      d := LocalsOf(o.subject);
      d := d + o.overrides;
  }

  class OverrideEnvironment {
    const subject: EnvRef
    var overrides: Dict
    var deleted: seq<Key>
    ghost const depth: nat
    ghost const repr: set<object>

    constructor (subject: EnvRef, overrides: Dict)
      requires Linked(subject)
      ensures Linked(OfOverride(this)) && this.subject == subject
      ensures Abs(OfOverride(this)) == Override(Abs(subject), Layer(overrides, []))
    {
      this.subject := subject;
      this.overrides := overrides;
      this.deleted := [];
      this.depth := Depth(subject) + 1;
      this.repr := {this} + Footprint(subject);
    }

    ghost function Value(): Env
      requires Linked(OfOverride(this))
      reads Footprint(OfOverride(this))
    {
      Abs(OfOverride(this))
    }

    /** The subject, as a value: no method of the override may change it. */
    ghost function Below(): Env
      requires Linked(OfOverride(this))
      reads Footprint(subject)
    {
      Abs(subject)
    }

    method GetItem(k: Key) returns (v: Option<Value>)
      requires Linked(OfOverride(this))
      ensures v == Lookup(Value(), k)
      decreases depth, 0
    {
      if k in overrides {
        v := Some(overrides[k]);
      } else if k in deleted {
        v := None;
      } else {
        v := ReadItem(subject, k);
      }
    }

    method HasKey(k: Key) returns (has: bool)
      requires Linked(OfOverride(this))
      ensures has <==> Contains(Value(), k)
      decreases depth, 0
    {
      if k in overrides { return true; }
      if k in deleted { return false; }
      has := HasItem(subject, k);
    }

    method AsDictionary() returns (d: Dict)
      requires Linked(OfOverride(this))
      ensures d == Dictionary(Value())
      decreases depth, 0
    {
      d := CopyOf(subject);
      d := d + overrides;
      d := map k | k in d && k !in deleted :: d[k];
    }

    method SetItem(k: Key, v: Value) returns (error: Option<Error>)
      requires Linked(OfOverride(this))
      modifies this
      ensures Outcome(Value(), error) == Overrides.SetItem(old(Value()), k, v)
      ensures Below() == old(Below())
    {
      NotBelow();
      if !IsIdentifier(k) { return Some(IllegalKey); }
      overrides := overrides[k := v];
      if k in deleted {
        deleted := RemoveFirst(deleted, k);
      }
      error := None;
    }

    method DelItem(k: Key) returns (error: Option<Error>)
      requires Linked(OfOverride(this))
      modifies this
      ensures Outcome(Value(), error) == Overrides.DelItem(old(Value()), k)
      ensures Below() == old(Below())
    {
      NotBelow();
      var had := k in overrides;
      overrides := overrides - {k};
      assert Abs(subject) == old(Abs(subject));
      if !had {
        assert overrides == old(overrides);
        var below := HasItem(subject, k);
        if !below { return Some(KeyError); }
      }
      deleted := deleted + [k];
      error := None;
    }

    method SetDefault(k: Key, default: Value) returns (v: Value)
      requires Linked(OfOverride(this))
      modifies this
      ensures Value() == Overrides.SetDefault(old(Value()), k, default)
      ensures Some(v) == Lookup(Value(), k)
      ensures Below() == old(Below())
    {
      NotBelow();
      var found := GetItem(k);
      assert Value() == old(Value());
      if found.Some? { return found.value; }
      overrides := overrides[k := default];
      v := default;
    }

    method Update(other: Dict)
      requires Linked(OfOverride(this))
      modifies this
      ensures Value() == Overrides.Update(old(Value()), other)
      ensures Below() == old(Below())
    {
      NotBelow();
      overrides := overrides + other;
    }

    method Replace(kw: Dict)
      requires Linked(OfOverride(this))
      modifies this
      ensures Value() == Overrides.Update(old(Value()), NotReserved(kw))
      ensures Below() == old(Below())
    {
      Update(NotReserved(kw));
    }

    method UpdateOnlyNew(other: Dict)
      requires Linked(OfOverride(this))
      modifies this
      ensures Value() == Overrides.UpdateOnlyNew(old(Value()), other)
      ensures Below() == old(Below())
    {
      NotBelow();
      var todo := other.Keys;
      while todo != {}
        invariant todo <= other.Keys
        invariant overrides == (other - todo) + old(overrides)
        invariant deleted == old(deleted) && Abs(subject) == old(Abs(subject))
      {
        var k :| k in todo;
        if k !in overrides {
          overrides := overrides[k := other[k]];
        }
        todo := todo - {k};
      }
      assert other - {} == other;
      assert Abs(subject) == old(Abs(subject));
    }

    lemma NotBelow()
      requires Linked(OfOverride(this))
      ensures this !in Footprint(subject)
    {
      if this in Footprint(subject) { FootprintDepth(subject, this); }
    }
  }

  /** The base environment at the end of a chain. */
  ghost function Bottom(r: EnvRef): BaseEnv
    requires Linked(r)
    decreases Depth(r)
  {
    match r
    case OfBase(b) => b
    case OfOverride(o) => Bottom(o.subject)
  }

  /** The same layers over another base dictionary. */
  ghost function WithBase(e: Env, dict: Dict): Env {
    match e
    case Base(_) => Base(dict)
    case Override(subject, layer) => Override(WithBase(subject, dict), layer)
  }

  twostate lemma {:induction false} OnlyBaseChanged(r: EnvRef)
    requires Linked(r) && forall x | x in Footprint(r) && x != Bottom(r) :: old(allocated(x)) && unchanged(x)
    requires old(allocated(Bottom(r)))
    ensures Abs(r) == WithBase(old(Abs(r)), Bottom(r).dict)
    decreases Depth(r)
  {
    match r
    case OfBase(b) =>
    case OfOverride(o) =>
      var x: object, y: object := o, Bottom(r);
      assert x is OverrideEnvironment && y is BaseEnv && x in Footprint(r);
      OnlyBaseChanged(o.subject);
  }

  /** A write to the base environment, seen from an override any number of layers above it: the
      layers are untouched, and the write shows through unless one of them masks the key. */
  method WriteBase(top: OverrideEnvironment, k: Key, v: Value) returns (error: Option<Error>)
    requires Linked(OfOverride(top))
    modifies Bottom(OfOverride(top))
    ensures var dict := old(Bottom(OfOverride(top)).dict);
            && Overrides.SetItem(Base(dict), k, v).error == error
            && top.Value() == WithBase(old(top.Value()), if error == None && k !in RESERVED then dict[k := v] else dict)
  {
    var base := BaseOf(OfOverride(top));
    error := base.SetItem(k, v);
    OnlyBaseChanged(OfOverride(top));
  }

  method BaseOf(r: EnvRef) returns (b: BaseEnv)
    requires Linked(r)
    ensures b == Bottom(r)
    decreases Depth(r)
  {
    match r
    case OfBase(base) => b := base;
    case OfOverride(o) => b := BaseOf(o.subject);
  }
}
