/**
  Recursive layer merging (deepMergeMaps in config/config.go) on configuration trees of any depth.
 */
module DeepMerge {
  import opened Outcome

  /** A decoded configuration value; Leaf is anything that is neither null nor an object. */
  datatype Value = Nil | Leaf(text: string) | Obj(fields: map<string, Value>)

  type Layer = v: Value | v.Obj? witness Obj(map[])

  function Get(l: Layer, k: string): Option<Value>
  {
    if k in l.fields then Some(l.fields[k]) else None
  }

  predicate Says(o: Option<Value>)
  {
    o.Some? && !o.value.Nil?
  }

  predicate IsObj(o: Option<Value>)
  {
    o.Some? && o.value.Obj?
  }

  /** What merging means, key by key: null and missing keep the base, objects merge, the rest replaces. */
  function Merge(base: Layer, over: Layer): Layer
    decreases over
  {
    var b, o := base.fields, over.fields;
    Obj(map k | k in b.Keys + o.Keys && (k in b || !o[k].Nil?) ::
      if k !in o || o[k].Nil? then b[k]
      else if k in b && b[k].Obj? && o[k].Obj? then Merge(b[k], o[k])
      else o[k])
  }

  function Combine(b: Option<Value>, o: Option<Value>): Option<Value>
  {
    if !Says(o) then b
    else if IsObj(b) && IsObj(o) then Some(Merge(b.value, o.value))
    else o
  }

  lemma MergeGet(base: Layer, over: Layer, k: string)
    ensures Get(Merge(base, over), k) == Combine(Get(base, k), Get(over, k))
  {
  }

  lemma SameLayer(a: Layer, b: Layer)
    requires forall k :: Get(a, k) == Get(b, k)
    ensures a == b
  {
    forall k ensures k in a.fields <==> k in b.fields {
      assert Get(a, k) == Get(b, k);
    }
    forall k | k in a.fields ensures a.fields[k] == b.fields[k] {
      assert Get(a, k) == Get(b, k);
    }
    assert a.fields == b.fields;
  }

  /** The entries of `over` outside `left` have been laid over the base. */
  ghost predicate Laid(base: Layer, over: Layer, left: set<string>, result: Layer)
  {
    forall k :: Get(result, k) == if k in left then Get(base, k) else Get(Merge(base, over), k)
  }

  lemma LaidNext(base: Layer, over: Layer, left: set<string>, result: Layer, k: string, next: Layer)
    requires Laid(base, over, left, result) && k in left
    requires forall j :: j != k ==> Get(next, j) == Get(result, j)
    requires Get(next, k) == Combine(Get(base, k), Get(over, k))
    ensures Laid(base, over, left - {k}, next)
  {
    MergeGet(base, over, k);
  }

  /** deepMergeMaps: copy the base, then lay the override over it entry by entry, in any order. */
  method DeepMergeMaps(base: Layer, over: Layer) returns (result: Layer)
    ensures result == Merge(base, over)
    decreases over
  {
    result := base;
    var left := over.fields.Keys;
    while left != {}
      invariant left <= over.fields.Keys
      invariant Laid(base, over, left, result)
      decreases |left|
    {
      var k :| k in left;
      var v := over.fields[k];
      var next := result;
      if !v.Nil? {
        if k in base.fields && base.fields[k].Obj? && v.Obj? {
          v := DeepMergeMaps(base.fields[k], v);
        }
        next := Obj(result.fields[k := v]);
      }
      assert Get(result, k) == Get(base, k);
      LaidNext(base, over, left, result, k, next);
      left, result := left - {k}, next;
    }
    SameLayer(result, Merge(base, over));
  }

  // ---------------------------------------------------------------------------- identities

  lemma EmptyOverride(base: Layer)
    ensures Merge(base, Obj(map[])) == base
  {
    SameLayer(Merge(base, Obj(map[])), base);
  }

  lemma {:induction false} SelfMerge(l: Layer)
    ensures Merge(l, l) == l
  {
    forall k ensures Get(Merge(l, l), k) == Get(l, k) {
      MergeGet(l, l, k);
      if IsObj(Get(l, k)) { SelfMerge(l.fields[k]); }
    }
    SameLayer(Merge(l, l), l);
  }

  /** Applying a layer twice is applying it once. */
  lemma {:induction false} Idempotent(base: Layer, over: Layer)
    ensures Merge(Merge(base, over), over) == Merge(base, over)
    decreases over
  {
    var once := Merge(base, over);
    forall k ensures Get(Merge(once, over), k) == Get(once, k) {
      MergeGet(base, over, k);
      MergeGet(once, over, k);
      if IsObj(Get(over, k)) {
        if IsObj(Get(base, k)) { Idempotent(base.fields[k], over.fields[k]); } else { SelfMerge(over.fields[k]); }
      }
    }
    SameLayer(Merge(once, over), once);
  }

  // --------------------------------------------------------------------------------- paths

  function At(v: Value, path: seq<string>): Option<Value>
    decreases |path|
  {
    if path == [] then Some(v)
    else if v.Obj? && path[0] in v.fields then At(v.fields[path[0]], path[1..])
    else None
  }

  /** The override omits the path or sets a point of it to null, under objects on both sides. */
  predicate Omits(base: Layer, over: Layer, path: seq<string>)
    decreases |path|
  {
    path != [] &&
      var b, o := Get(base, path[0]), Get(over, path[0]);
      !Says(o) || (IsObj(b) && IsObj(o) && Omits(b.value, o.value, path[1..]))
  }

  /** What the override omits keeps its base value; what it sets, it gets. */
  lemma {:induction false} PathsKept(base: Layer, over: Layer, path: seq<string>)
    ensures Omits(base, over, path) ==> At(Merge(base, over), path) == At(base, path)
    ensures At(over, path).Some? && At(over, path).value.Leaf? ==> At(Merge(base, over), path) == At(over, path)
    decreases |path|
  {
    if path != [] {
      MergeGet(base, over, path[0]);
      var b, o := Get(base, path[0]), Get(over, path[0]);
      if IsObj(b) && IsObj(o) { PathsKept(b.value, o.value, path[1..]); }
    }
  }

  // -------------------------------------------------------------------------- associativity

  /** Merging onto x adds nothing to z. */
  ghost predicate Absorbs(x: Layer, z: Layer)
    decreases z
  {
    && (forall k :: k in x.fields ==> k in z.fields)
    && (forall k :: k in z.fields ==>
          if z.fields[k].Nil? then Get(x, k) == Some(Nil)
          else IsObj(Get(x, k)) && z.fields[k].Obj? ==> Absorbs(x.fields[k], z.fields[k]))
  }

  lemma {:induction false} AbsorbsExact(x: Layer, z: Layer)
    ensures Merge(x, z) == z <==> Absorbs(x, z)
    decreases z
  {
    var m := Merge(x, z);
    forall k | k in z.fields && IsObj(Get(x, k)) && z.fields[k].Obj?
      ensures Merge(x.fields[k], z.fields[k]) == z.fields[k] <==> Absorbs(x.fields[k], z.fields[k])
    {
      AbsorbsExact(x.fields[k], z.fields[k]);
    }
    if Absorbs(x, z) {
      forall k ensures Get(m, k) == Get(z, k) { MergeGet(x, z, k); }
      SameLayer(m, z);
    }
    if m == z {
      forall k | k in x.fields ensures k in z.fields { MergeGet(x, z, k); }
      forall k | k in z.fields
        ensures if z.fields[k].Nil? then Get(x, k) == Some(Nil)
                else IsObj(Get(x, k)) && z.fields[k].Obj? ==> Absorbs(x.fields[k], z.fields[k])
      {
        MergeGet(x, z, k);
      }
    }
  }

  /**
    No layer order matters at key k: unless the outer layers hold objects there and the middle one
    a plain value, in which case the last object must already decide everything the first says.
   */
  ghost predicate OrderFree(a: Layer, b: Layer, c: Layer)
    decreases c
  {
    forall k :: k in c.fields && IsObj(Get(a, k)) && c.fields[k].Obj? && Says(Get(b, k)) ==>
      if b.fields[k].Obj? then OrderFree(a.fields[k], b.fields[k], c.fields[k])
      else Absorbs(a.fields[k], c.fields[k])
  }

  lemma {:induction false} AssociativeAt(a: Layer, b: Layer, c: Layer, k: string)
    requires IsObj(Get(a, k)) && IsObj(Get(c, k)) && IsObj(Get(b, k)) ==>
      (Merge(Merge(a.fields[k], b.fields[k]), c.fields[k]) == Merge(a.fields[k], Merge(b.fields[k], c.fields[k]))
       <==> OrderFree(a.fields[k], b.fields[k], c.fields[k]))
    ensures Get(Merge(Merge(a, b), c), k) == Get(Merge(a, Merge(b, c)), k) <==>
      (IsObj(Get(a, k)) && IsObj(Get(c, k)) && Says(Get(b, k)) ==>
         if b.fields[k].Obj? then OrderFree(a.fields[k], b.fields[k], c.fields[k])
         else Absorbs(a.fields[k], c.fields[k]))
  {
    MergeGet(a, b, k);
    MergeGet(b, c, k);
    MergeGet(Merge(a, b), c, k);
    MergeGet(a, Merge(b, c), k);
    if IsObj(Get(a, k)) && IsObj(Get(c, k)) { AbsorbsExact(a.fields[k], c.fields[k]); }
  }

  /** Merging is associative exactly on order-free layers. */
  lemma {:induction false} AssociativeIff(a: Layer, b: Layer, c: Layer)
    ensures Merge(Merge(a, b), c) == Merge(a, Merge(b, c)) <==> OrderFree(a, b, c)
    decreases c
  {
    var left, right := Merge(Merge(a, b), c), Merge(a, Merge(b, c));
    forall k ensures Get(left, k) == Get(right, k) <==>
      (IsObj(Get(a, k)) && IsObj(Get(c, k)) && Says(Get(b, k)) ==>
         if b.fields[k].Obj? then OrderFree(a.fields[k], b.fields[k], c.fields[k])
         else Absorbs(a.fields[k], c.fields[k]))
    {
      if IsObj(Get(a, k)) && IsObj(Get(c, k)) && IsObj(Get(b, k)) {
        AssociativeIff(a.fields[k], b.fields[k], c.fields[k]);
      }
      AssociativeAt(a, b, c, k);
    }
    if OrderFree(a, b, c) {
      forall k ensures Get(left, k) == Get(right, k) {}
      SameLayer(left, right);
    }
  }

  /** No key holds an object in one layer and a plain value in another, at any depth. */
  ghost predicate Uniform(a: Layer, b: Layer)
    decreases a
  {
    forall k :: k in a.fields && Says(Get(b, k)) && !a.fields[k].Nil? ==>
      if a.fields[k].Obj? then b.fields[k].Obj? && Uniform(a.fields[k], b.fields[k]) else !b.fields[k].Obj?
  }

  lemma {:induction false} UniformLayersAssociate(a: Layer, b: Layer, c: Layer)
    requires Uniform(a, b)
    ensures OrderFree(a, b, c) && Merge(Merge(a, b), c) == Merge(a, Merge(b, c))
    decreases c
  {
    forall k | k in c.fields && IsObj(Get(a, k)) && c.fields[k].Obj? && Says(Get(b, k))
      ensures b.fields[k].Obj? && OrderFree(a.fields[k], b.fields[k], c.fields[k])
    {
      UniformLayersAssociate(a.fields[k], b.fields[k], c.fields[k]);
    }
    AssociativeIff(a, b, c);
  }

  /** Without that, the order of folding layers shows: an object hidden behind a plain value comes back. */
  lemma OrderShows()
    ensures var a := Obj(map["k" := Obj(map["x" := Leaf("1")])]);
      var b := Obj(map["k" := Leaf("2")]);
      var c := Obj(map["k" := Obj(map[])]);
      Merge(Merge(a, b), c) != Merge(a, Merge(b, c))
  {
    var a: Layer := Obj(map["k" := Obj(map["x" := Leaf("1")])]);
    var b: Layer := Obj(map["k" := Leaf("2")]);
    var c: Layer := Obj(map["k" := Obj(map[])]);
    assert "x" in a.fields["k"].fields && "x" !in c.fields["k"].fields;
    assert !Absorbs(a.fields["k"], c.fields["k"]);
    assert "k" in c.fields && IsObj(Get(a, "k")) && Says(Get(b, "k"));
    assert !OrderFree(a, b, c);
    AssociativeIff(a, b, c);
  }
}
