/** The handle table of the DOM glue: an object's handle is its place in a list and,
  * above that, the number of the deepest declared class it is of.
  */
module DomHandles {

  datatype Option<T> = None | Some(value: T)

  const STRIDE: nat := 137438953472

  /** Integers below this are exact as JavaScript numbers. */
  const EXACT: nat := 9007199254740992

  type Object = nat
  type Name = string

  /** `$CLASSES`: names and numbers. */
  type Classes = seq<(Name, nat)>

  /** Which objects are instances of which classes, where the global is there at all. */
  type InstanceOf = (Object, Name) -> bool

  /** `ancestors` tells each class's. */
  type Ancestors = (Name, Name) -> bool

  /** Each class before its ancestors, numbered below their count. */
  ghost predicate Ordered(cs: Classes, isAncestor: Ancestors) {
    && (forall i, k :: 0 <= i < k < |cs| ==> !isAncestor(cs[i].0, cs[k].0))
    && forall i :: 0 <= i < |cs| ==> cs[i].1 < |cs|
  }

  /** The classes an object is of lie on one line of descent. */
  ghost predicate OneLine(cs: Classes, isA: InstanceOf, isAncestor: Ancestors, o: Object) {
    forall i, k :: 0 <= i < |cs| && 0 <= k < |cs| && i != k && isA(o, cs[i].0) && isA(o, cs[k].0) ==>
      isAncestor(cs[i].0, cs[k].0) || isAncestor(cs[k].0, cs[i].0)
  }

  /** `$CLASSES.find` */
  function Find(cs: Classes, isA: InstanceOf, o: Object): (r: Option<nat>)
    ensures r.Some? ==> r.value < |cs| && isA(o, cs[r.value].0) && forall k :: 0 <= k < r.value ==> !isA(o, cs[k].0)
    ensures r.None? ==> forall k :: 0 <= k < |cs| ==> !isA(o, cs[k].0)
  {
    if cs == [] then None
    else if isA(o, cs[0].0) then Some(0)
    else
      var r := Find(cs[1..], isA, o);
      assert forall k :: 1 <= k < |cs| ==> cs[k] == cs[1..][k - 1];
      if r.Some? then Some(r.value + 1) else None
  }

  /** Every other declared class of the object is an ancestor of class `i`. */
  ghost predicate MostDerived(cs: Classes, isA: InstanceOf, isAncestor: Ancestors, o: Object, i: nat) {
    i < |cs| && isA(o, cs[i].0) && forall k :: 0 <= k < |cs| && k != i && isA(o, cs[k].0) ==> isAncestor(cs[k].0, cs[i].0)
  }

  lemma FirstIsMostDerived(cs: Classes, isA: InstanceOf, isAncestor: Ancestors, o: Object)
    requires Ordered(cs, isAncestor) && OneLine(cs, isA, isAncestor, o)
    ensures match Find(cs, isA, o)
            case Some(i) => MostDerived(cs, isA, isAncestor, o, i)
            case None => forall i :: !MostDerived(cs, isA, isAncestor, o, i)
  {
    var r := Find(cs, isA, o);
    if r.Some? {
      forall k | 0 <= k < |cs| && k != r.value && isA(o, cs[k].0) ensures isAncestor(cs[k].0, cs[r.value].0) {
        assert r.value < k;
        assert !isAncestor(cs[r.value].0, cs[k].0);
      }
    }
  }

  class Table {
    const classes: Classes
    const isA: InstanceOf
    var objects: seq<Object>
    var handles: map<Object, nat>

    constructor (classes: Classes, isA: InstanceOf)
      ensures this.classes == classes && this.isA == isA && objects == [] && handles == map[] && Valid()
    {
      this.classes, this.isA := classes, isA;
      objects, handles := [], map[];
    }

    /** The objects are listed once each, and a handle says where and of which class. */
    ghost predicate Valid()
      reads this
    {
      && |objects| <= STRIDE
      && (forall o :: o in handles <==> o in objects)
      && forall k :: 0 <= k < |objects| ==>
           && objects[k] in handles && Find(classes, isA, objects[k]).Some?
           && handles[objects[k]] == classes[Find(classes, isA, objects[k]).value].1 * STRIDE + k
    }

    /** `None` is the thrown error: the object is of no declared class. */
    method Handle(o: Object) returns (handle: Option<nat>)
      requires Valid() && (o in handles || |objects| < STRIDE)
      modifies this
      ensures Valid() && (handle.None? <==> Find(classes, isA, o).None?)
      ensures handle.Some? ==> handles == old(handles)[o := handle.value]
      ensures handle.None? ==> handles == old(handles)
      ensures o in old(handles) ==> handles == old(handles)
      ensures objects == old(objects) + if handle.Some? && o !in old(handles) then [o] else []
    {
      if o in handles {
        var k :| 0 <= k < |objects| && objects[k] == o;
        return Some(handles[o]);
      }
      var entry := Find(classes, isA, o);
      if entry.None? { return None; }
      objects := objects + [o];
      var next := classes[entry.value].1 * STRIDE + |objects| - 1;
      handles := handles[o := next];
      return Some(next);
    }

    /** `$object` */
    function ObjectAt(handle: nat): (o: Option<Object>)
      reads this
    {
      var k := handle % STRIDE;
      if k < |objects| then Some(objects[k]) else None
    }

    /** A handle leads back to its object. */
    lemma ObjectOfHandle(o: Object)
      requires Valid() && o in handles
      ensures ObjectAt(handles[o]) == Some(o)
    {
      var k :| 0 <= k < |objects| && objects[k] == o;
      ModStride(classes[Find(classes, isA, o).value].1, k);
    }

    lemma HandlesDiffer(o: Object, p: Object)
      requires Valid() && o in handles && p in handles && handles[o] == handles[p]
      ensures o == p
    {
      ObjectOfHandle(o);
      ObjectOfHandle(p);
    }

    /** A handle is an exact number, and its upper part the class's. */
    lemma HandleTells(o: Object, isAncestor: Ancestors)
      requires Valid() && o in handles && Ordered(classes, isAncestor) && OneLine(classes, isA, isAncestor, o)
      requires |classes| <= 0x1_0000
      ensures exists i: nat :: i < |classes| && MostDerived(classes, isA, isAncestor, o, i) && handles[o] / STRIDE == classes[i].1
      ensures handles[o] < EXACT
    {
      var k :| 0 <= k < |objects| && objects[k] == o;
      var i := Find(classes, isA, o).value;
      FirstIsMostDerived(classes, isA, isAncestor, o);
      ModStride(classes[i].1, k);
      assert MostDerived(classes, isA, isAncestor, o, i);
    }
  }

  lemma ModStride(tag: nat, k: nat)
    requires k < STRIDE
    ensures (tag * STRIDE + k) % STRIDE == k && (tag * STRIDE + k) / STRIDE == tag
  {
  }
}
