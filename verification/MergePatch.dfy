/** Applying a JSON merge patch to a configuration, against the algorithm of
    section 2 of RFC 7396. */
module MergePatch {
  import opened Options

  /** Strings, numbers and booleans are atoms. */
  datatype Json = Null | Atom(text: string) | Array(items: seq<Json>) | Object(fields: map<string, Json>)

  type Fields = map<string, Json>

  function Get(m: Fields, k: string): Option<Json> {
    if k in m then Some(m[k]) else None
  }

  // ---- The standard ------------------------------------------------------

  /** What the standard leaves at a name; `target` is None if it has no such
      member.  A null in the patch removes the member. */
  function Patched(target: Option<Json>, patch: Json): Option<Json>
    decreases patch
  {
    match patch
    case Null => None
    case Object(p) =>
      var t: Fields := if target.Some? && target.value.Object? then target.value.fields else map[];
      Some(Object(map k | k in t.Keys + p.Keys && (k in p ==> Patched(Get(t, k), p[k]).Some?)
                  :: if k in p then Patched(Get(t, k), p[k]).value else t[k]))
    case _ => Some(patch)
  }

  // ---- The code ----------------------------------------------------------

  /** What the code leaves at a name. */
  function Merged(target: Option<Json>, patch: Json): Option<Json>
    decreases patch
  {
    match patch
    case Null => None
    case Object(p) =>
      if target.Some? && target.value.Object? then
        var t := target.value.fields;
        Some(Object(map k | k in t.Keys + p.Keys && (k in p ==> Merged(Get(t, k), p[k]).Some?)
                    :: if k in p then Merged(Get(t, k), p[k]).value else t[k]))
      else Some(patch)
    case _ => Some(patch)
  }

  function Merge(dst: Fields, src: Fields): Fields {
    Merged(Some(Object(dst)), Object(src)).value.fields
  }

  /** Merges src into dst, member by member in no particular order. */
  method MergeMap(dst: Fields, src: Fields) returns (out: Fields)
    ensures out == Merge(dst, src)
    decreases Object(src)
  {
    out := dst;
    var todo := src.Keys;
    while todo != {}
      invariant todo <= src.Keys
      invariant forall k :: Get(out, k) == if k in src.Keys - todo then Merged(Get(dst, k), src[k]) else Get(dst, k)
      decreases todo
    {
      var k :| k in todo;
      todo := todo - {k};
      var v := src[k];
      if v == Null {
        out := out - {k};
        continue;
      }
      if v.Object? && k in out && out[k].Object? {
        var sub := MergeMap(out[k].fields, v.fields);
        out := out[k := Object(sub)];
        continue;
      }
      out := out[k := v];
    }
    SameFields(out, Merge(dst, src));
  }

  lemma SameFields(a: Fields, b: Fields)
    requires forall k :: Get(a, k) == Get(b, k)
    ensures a == b
  {
    assert forall k :: k in a <==> Get(a, k).Some?;
    assert forall k :: k in b <==> Get(b, k).Some?;
    assert forall k :: k in a ==> Get(a, k) == Some(a[k]);
  }

  // ---- When the code meets the standard ----------------------------------

  /** No member of an object, at any depth, is null.  Nulls inside arrays do not matter. */
  ghost predicate NoNulls(j: Json)
    decreases j
  {
    j.Object? ==> forall k :: k in j.fields ==> j.fields[k] != Null && NoNulls(j.fields[k])
  }

  /** Every object in the patch that lands on a missing or non-object member has
      no nulls in it. */
  ghost predicate Clean(target: Option<Json>, patch: Json)
    decreases patch
  {
    if !patch.Object? then true
    else if target.Some? && target.value.Object? then
      forall k :: k in patch.fields ==> Clean(Get(target.value.fields, k), patch.fields[k])
    else NoNulls(patch)
  }

  ghost predicate NoObject(target: Option<Json>) {
    target.None? || !target.value.Object?
  }

  /** The standard keeps a patch that lands on no object as it is exactly if it has no nulls. */
  lemma {:induction false} FreshIff(target: Option<Json>, patch: Json)
    requires NoObject(target) && patch != Null
    ensures Patched(target, patch) == Some(patch) <==> NoNulls(patch)
    decreases patch
  {
    if patch.Object? {
      var p := patch.fields;
      forall k | k in p && p[k] != Null
        ensures Patched(None, p[k]) == Some(p[k]) <==> NoNulls(p[k])
      {
        FreshIff(None, p[k]);
      }
      var r := Patched(target, patch).value.fields;
      assert forall k :: k in p ==> Get(r, k) == Patched(None, p[k]);
      if NoNulls(patch) {
        assert r == p;
      } else {
        var k :| k in p && (p[k] == Null || !NoNulls(p[k]));
        assert Get(r, k) != Get(p, k);
      }
    }
  }

  /** The code computes the merge patch of the standard exactly on clean patches. */
  lemma {:induction false} MeetsStandardIff(target: Option<Json>, patch: Json)
    ensures Merged(target, patch) == Patched(target, patch) <==> Clean(target, patch)
    decreases patch
  {
    if patch.Object? {
      if NoObject(target) {
        FreshIff(target, patch);
      } else {
        var t, p := target.value.fields, patch.fields;
        forall k | k in p
          ensures Merged(Get(t, k), p[k]) == Patched(Get(t, k), p[k]) <==> Clean(Get(t, k), p[k])
        {
          MeetsStandardIff(Get(t, k), p[k]);
        }
        var m, r := Merged(target, patch).value.fields, Patched(target, patch).value.fields;
        assert forall k :: k in p ==> Get(m, k) == Merged(Get(t, k), p[k]) && Get(r, k) == Patched(Get(t, k), p[k]);
        assert forall k :: k !in p ==> Get(m, k) == Get(t, k) == Get(r, k);
        if Clean(target, patch) {
          SameFields(m, r);
        } else {
          var k :| k in p && !Clean(Get(t, k), p[k]);
          assert Get(m, k) != Get(r, k);
        }
      }
    }
  }

  /** Merging an object into itself gives it back exactly if it has no nulls. */
  lemma {:induction false} SelfMergeIff(j: Json)
    requires j != Null
    ensures Merged(Some(j), j) == Some(j) <==> NoNulls(j)
    decreases j
  {
    if j.Object? {
      var p := j.fields;
      forall k | k in p && p[k] != Null
        ensures Merged(Some(p[k]), p[k]) == Some(p[k]) <==> NoNulls(p[k])
      {
        SelfMergeIff(p[k]);
      }
      var r := Merged(Some(j), j).value.fields;
      assert forall k :: k in p ==> Get(r, k) == Merged(Some(p[k]), p[k]);
      if NoNulls(j) {
        assert r == p;
      } else {
        var k :| k in p && (p[k] == Null || !NoNulls(p[k]));
        assert Get(r, k) != Get(p, k);
      }
    }
  }

  /** Applying a patch twice is applying it once, exactly if it is clean. */
  lemma {:induction false} IdempotentIff(target: Option<Json>, patch: Json)
    ensures Merged(Merged(target, patch), patch) == Merged(target, patch) <==> Clean(target, patch)
    decreases patch
  {
    if patch.Object? {
      if NoObject(target) {
        SelfMergeIff(patch);
      } else {
        var t, p := target.value.fields, patch.fields;
        forall k | k in p
          ensures Merged(Merged(Get(t, k), p[k]), p[k]) == Merged(Get(t, k), p[k]) <==> Clean(Get(t, k), p[k])
        {
          IdempotentIff(Get(t, k), p[k]);
        }
        var once := Merged(target, patch).value.fields;
        var twice := Merged(Some(Object(once)), patch).value.fields;
        assert forall k :: k in p ==>
            Get(once, k) == Merged(Get(t, k), p[k]) && Get(twice, k) == Merged(Get(once, k), p[k]);
        assert forall k :: k !in p ==> Get(once, k) == Get(t, k) == Get(twice, k);
        if Clean(target, patch) {
          SameFields(once, twice);
        } else {
          var k :| k in p && !Clean(Get(t, k), p[k]);
          assert Get(once, k) != Get(twice, k);
        }
      }
    }
  }
}
