/** The layered merge of configuration sources. */
module Config {
  import opened Text
  import opened Json

  /** `merge_json`: objects are merged key by key, anything else is replaced. */
  function Merge(b: Json, o: Json): Json
    decreases o
  {
    if b.Obj? && o.Obj? then Obj(map k | k in b.members.Keys + o.members.Keys :: MergedAt(b, o, k)) else o
  }

  function MergedAt(b: Json, o: Json, k: string): Json
    requires b.Obj? && o.Obj? && k in b.members.Keys + o.members.Keys
    decreases o, 0
  {
    if k !in o.members then b.members[k]
    else if k !in b.members then o.members[k]
    else Merge(b.members[k], o.members[k])
  }

  /** The recursive, key-by-key update, in whatever order the overlay is iterated. */
  method MergeJson(b: Json, o: Json) returns (r: Json)
    ensures r == Merge(b, o)
    decreases o
  {
    if !b.Obj? || !o.Obj? {
      return o;
    }
    var members, rest := b.members, o.members.Keys;
    while rest != {}
      invariant rest <= o.members.Keys
      invariant members.Keys == b.members.Keys + (o.members.Keys - rest)
      invariant forall k | k in members :: members[k] == if k in rest then b.members[k] else MergedAt(b, o, k)
    {
      var k :| k in rest;
      if k in members {
        var child := MergeJson(members[k], o.members[k]);
        members := members[k := child];
      } else {
        members := members[k := o.members[k]];
      }
      rest := rest - {k};
    }
    r := Obj(members);
    assert r.members.Keys == b.members.Keys + o.members.Keys;
  }

  /** `ConfigLoader::load` up to deserialisation: sources are folded from the
      left onto an empty object; the first source that fails to resolve fails
      the load, and no sources at all means the defaults. */
  function Layered(sources: seq<Json>): Json {
    if sources == [] then Obj(map[]) else Merge(Layered(sources[..|sources| - 1]), sources[|sources| - 1])
  }

  method Load(sources: seq<Result<Json, string>>, defaults: Json) returns (r: Result<Json, string>)
    ensures r.Ok? <==> forall i | 0 <= i < |sources| :: sources[i].Ok?
    ensures r.Ok? ==>
              var trees := seq(|sources|, i requires 0 <= i < |sources| && sources[i].Ok? => sources[i].value);
              r.value == Layered(if sources == [] then [defaults] else trees)
    ensures r.Err? ==> exists k :: 0 <= k < |sources| && sources[k] == Err(r.error)
                                   && forall i | 0 <= i < k :: sources[i].Ok?
  {
    hide Merge;
    var all := if sources == [] then [Ok(defaults)] else sources;
    var tree := Obj(map[]);
    ghost var done: seq<Json> := [];
    for i := 0 to |all|
      invariant |done| == i && tree == Layered(done)
      invariant forall k | 0 <= k < i :: all[k] == Ok(done[k])
    {
      if all[i].Err? {
        return Err(all[i].error);
      }
      tree := MergeJson(tree, all[i].value);
      assert (done + [all[i].value])[..i] == done;
      done := done + [all[i].value];
    }
    r := Ok(tree);
    assert done == if sources == [] then [defaults]
                   else seq(|sources|, i requires 0 <= i < |sources| && sources[i].Ok? => sources[i].value);
  }

  // ------------------------------------------------------------- precedence

  /** Following a key path: it falls off an object that lacks a key, it meets
      a value that is not an object too early, or it arrives. */
  datatype Walk = Silent | Blocked | At(v: Json)

  function Follow(doc: Json, path: seq<string>): Walk {
    if path == [] then At(doc)
    else if !doc.Obj? then Blocked
    else if path[0] !in doc.members then Silent
    else Follow(doc.members[path[0]], path[1..])
  }

  predicate IsLeaf(w: Walk, v: Json) {
    w == At(v) && !v.Obj?
  }

  /** One overlay: what it says at a path stands; where it is silent, leaves
      below stay and no new leaf appears. */
  lemma {:induction false} MergeAt(b: Json, o: Json, path: seq<string>)
    requires b.Obj? && o.Obj?
    ensures var m, wb, wo := Follow(Merge(b, o), path), Follow(b, path), Follow(o, path);
            && (wo.Silent? ==> (wb.Blocked? && !m.At?) || m == wb)
            && (wo.Blocked? ==> m.Blocked?)
            && (wo.At? && wo.v.Obj? ==> m.At? && m.v.Obj?)
            && (wo.At? && !wo.v.Obj? ==> m == wo)
    decreases |path|
  {
    if path != [] {
      var k := path[0];
      if k in b.members && k in o.members {
        var bk, ok := b.members[k], o.members[k];
        assert Merge(b, o).members[k] == Merge(bk, ok);
        if bk.Obj? && ok.Obj? {
          MergeAt(bk, ok, path[1..]);
        }
      }
    }
  }

  /** `v` is a leaf at `path` in source `i`, and all later sources are silent there. */
  ghost predicate DecidedBy(sources: seq<Json>, path: seq<string>, i: int, v: Json) {
    && 0 <= i < |sources| && IsLeaf(Follow(sources[i], path), v)
    && forall j | i < j < |sources| :: Follow(sources[j], path).Silent?
  }

  /** Layered precedence, exactly: `v` is a leaf of the merged tree if and only
      if it is the value of the last source that is not silent on the path. A
      source that is no object at all blocks every path. */
  lemma {:induction false} Precedence(sources: seq<Json>, path: seq<string>, v: Json)
    requires path != []
    ensures IsLeaf(Follow(Layered(sources), path), v) <==> exists i :: DecidedBy(sources, path, i, v)
    decreases |sources|
  {
    hide Follow;
    if sources == [] {
      NothingMerged(path);
    } else {
      var n := |sources| - 1;
      var init, o := sources[..n], sources[n];
      Precedence(init, path, v);
      if Layered(init).Obj? && o.Obj? {
        MergeAt(Layered(init), o, path);
      } else {
        ScalarsBlock(Layered(init), path);
        ScalarsBlock(o, path);
      }
      if DecidedBy(sources, path, n, v) {
      } else if Follow(o, path).Silent? {
        forall i ensures DecidedBy(sources, path, i, v) <==> DecidedBy(init, path, i, v) {
          assert forall j | 0 <= j < n :: init[j] == sources[j];
        }
      }
    }
  }

  lemma ScalarsBlock(doc: Json, path: seq<string>)
    requires path != []
    ensures !doc.Obj? ==> Follow(doc, path) == Blocked
  {
  }

  lemma NothingMerged(path: seq<string>)
    requires path != []
    ensures Follow(Obj(map[]), path) == Silent
  {
  }

  // ------------------------------------------------------------ idempotence

  lemma {:induction false} MergeSelf(o: Json)
    ensures Merge(o, o) == o
  {
    if o.Obj? {
      forall k | k in o.members ensures MergedAt(o, o, k) == o.members[k] {
        MergeSelf(o.members[k]);
      }
      assert Merge(o, o).members == o.members;
    }
  }

  /** Merging the same overlay twice is merging it once. */
  lemma {:induction false} MergeTwice(b: Json, o: Json)
    ensures Merge(Merge(b, o), o) == Merge(b, o)
    decreases o
  {
    if b.Obj? && o.Obj? {
      var m := Merge(b, o);
      forall k | k in m.members ensures MergedAt(m, o, k) == m.members[k] {
        assert m.members[k] == MergedAt(b, o, k);
        if k in o.members {
          if k in b.members {
            assert m.members[k] == Merge(b.members[k], o.members[k]);
            MergeTwice(b.members[k], o.members[k]);
          } else {
            MergeSelf(o.members[k]);
          }
        }
      }
      assert Merge(m, o).members == m.members;
    } else {
      MergeSelf(o);
    }
  }

  // -------------------------------------------------------------- grouping

  /** `c` decides everything that `a` says below an object: every key of `a`
      is in `c`, all the way down. */
  predicate Overrides(c: Json, a: Json)
    decreases c
  {
    !c.Obj? || !a.Obj? || forall k | k in a.members :: k in c.members && Overrides(c.members[k], a.members[k])
  }

  lemma {:induction false} OverridesExact(a: Json, c: Json)
    ensures Overrides(c, a) <==> Merge(a, c) == c
    decreases c
  {
    if a.Obj? && c.Obj? {
      var m := Merge(a, c);
      forall k | k in a.members && k in c.members
        ensures m.members[k] == c.members[k] <==> Overrides(c.members[k], a.members[k])
      {
        assert m.members[k] == MergedAt(a, c, k) == Merge(a.members[k], c.members[k]);
        OverridesExact(a.members[k], c.members[k]);
      }
      if Overrides(c, a) {
        forall k | k in m.members ensures k in c.members && m.members[k] == c.members[k] {
          if k !in a.members {
            assert m.members[k] == MergedAt(a, c, k);
          }
        }
        assert m.members == c.members;
      }
      if m == c {
        forall k | k in a.members ensures k in c.members && Overrides(c.members[k], a.members[k]) {
          assert k in m.members;
        }
      }
    }
  }

  /** When it does not matter in which order overlays are grouped: a value
      that is not an object wipes what lies below it only when it is merged in
      its turn, so whatever it stands between must be overridden anyway. */
  predicate Regroups(a: Json, b: Json, c: Json)
    decreases c
  {
    || !c.Obj? || !a.Obj?
    || (if b.Obj?
        then forall k | k in a.members && k in b.members && k in c.members ::
               Regroups(a.members[k], b.members[k], c.members[k])
        else Overrides(c, a))
  }

  lemma RegroupAt(a: Json, b: Json, c: Json, k: string)
    requires a.Obj? && b.Obj? && c.Obj?
    ensures var left, right := Merge(Merge(a, b), c), Merge(a, Merge(b, c));
            && (k in left.members <==> k in right.members)
            && (k in left.members <==> k in a.members || k in b.members || k in c.members)
            && (k in a.members && k in b.members && k in c.members ==>
                  && left.members[k] == Merge(Merge(a.members[k], b.members[k]), c.members[k])
                  && right.members[k] == Merge(a.members[k], Merge(b.members[k], c.members[k])))
            && (k in left.members && !(k in a.members && k in b.members && k in c.members) ==>
                  left.members[k] == right.members[k])
  {
    var ab, bc := Merge(a, b), Merge(b, c);
    var left, right := Merge(ab, c), Merge(a, bc);
    if k in a.members || k in b.members {
      assert ab.members[k] == MergedAt(a, b, k);
    }
    if k in b.members || k in c.members {
      assert bc.members[k] == MergedAt(b, c, k);
    }
    if k in left.members {
      assert left.members[k] == MergedAt(ab, c, k) && right.members[k] == MergedAt(a, bc, k);
    }
  }

  /** Merging is associative exactly where `Regroups` says so. */
  lemma {:induction false} AssociativeIff(a: Json, b: Json, c: Json)
    ensures Merge(Merge(a, b), c) == Merge(a, Merge(b, c)) <==> Regroups(a, b, c)
    decreases c
  {
    if a.Obj? && c.Obj? {
      if !b.Obj? {
        OverridesExact(a, c);
      } else {
        var left, right := Merge(Merge(a, b), c), Merge(a, Merge(b, c));
        forall k ensures (k in left.members <==> k in right.members)
          && (k in left.members ==>
                (left.members[k] == right.members[k] <==>
                 (k in a.members && k in b.members && k in c.members ==>
                    Regroups(a.members[k], b.members[k], c.members[k]))))
        {
          RegroupAt(a, b, c, k);
          if k in a.members && k in b.members && k in c.members {
            AssociativeIff(a.members[k], b.members[k], c.members[k]);
          }
        }
        hide Merge;
        if Regroups(a, b, c) {
          assert left.members == right.members;
        }
        if left == right {
          forall k | k in a.members && k in b.members && k in c.members
            ensures Regroups(a.members[k], b.members[k], c.members[k])
          {
            RegroupAt(a, b, c, k);
          }
        }
      }
    }
  }

  /** For instance, with a scalar between two objects. */
  lemma MergeIsNotAssociative()
    ensures var a := Obj(map["k" := Obj(map["x" := Num(1)])]);
            var b := Obj(map["k" := Num(0)]);
            var c := Obj(map["k" := Obj(map[])]);
            Merge(Merge(a, b), c) != Merge(a, Merge(b, c))
  {
    hide Merge;
    var a := Obj(map["k" := Obj(map["x" := Num(1)])]);
    var b := Obj(map["k" := Num(0)]);
    var c := Obj(map["k" := Obj(map[])]);
    var inner := Obj(map["x" := Num(1)]);
    assert "x" in inner.members && !Overrides(Obj(map[]), inner);
    assert !Regroups(a.members["k"], b.members["k"], c.members["k"]);
    assert "k" in a.members && "k" in b.members && "k" in c.members;
    AssociativeIff(a, b, c);
  }
}
