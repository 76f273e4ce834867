/** Merging a JSON object into another, as the device shadows do, against the JSON Merge
    Patch of RFC 7396. */
module JsonMerge {
  datatype Json =
    | Null
    | Bool(b: bool)
    | Number(n: real)
    | Text(s: string)
    | Array(items: seq<Json>)
    | Object(fields: Fields)

  type Fields = map<string, Json>

  /** The merged object: a null removes its key, an object merges into an object, and any
      other value, nested nulls included, replaces what was there. */
  function Merge(current: Fields, patch: Fields): Fields
    decreases Object(patch)
  {
    map k | k in current.Keys + patch.Keys && !(k in patch && patch[k].Null?) ::
      if k !in patch then current[k]
      else if k in current && current[k].Object? && patch[k].Object? then
        Object(Merge(current[k].fields, patch[k].fields))
      else patch[k]
  }

  /** Section 2 of RFC 7396: a non-object target of an object patch counts as empty. */
  function MergePatch(target: Json, patch: Json): Json
    decreases patch
  {
    if !patch.Object? then patch
    else
      var fields := if target.Object? then target.fields else map[];
      Object(map k | k in fields.Keys + patch.fields.Keys && !(k in patch.fields && patch.fields[k].Null?) ::
        if k !in patch.fields then fields[k]
        else MergePatch(if k in fields then fields[k] else Null, patch.fields[k]))
  }

  /** The merge as the store computes it, key by key on a copy. */
  method MergeObject(current: Fields, patch: Fields) returns (merged: Fields)
    ensures merged == Merge(current, patch)
    decreases Object(patch)
  {
    merged := current;
    var todo := patch.Keys;
    while todo != {}
      invariant todo <= patch.Keys
      invariant merged == Merge(current, patch - todo)
      decreases todo
    {
      var key :| key in todo;
      var value := patch[key];
      MergeOneMore(current, patch - todo, key, value);
      assert (patch - todo)[key := value] == patch - (todo - {key});
      if value.Null? {
        merged := merged - {key};
      } else if key in merged && merged[key].Object? && value.Object? {
        assert value == Object(value.fields);
        var inner := MergeObject(merged[key].fields, value.fields);
        merged := merged[key := Object(inner)];
      } else {
        merged := merged[key := value];
      }
      todo := todo - {key};
    }
    assert patch - {} == patch;
  }

  /** One more key of the patch changes the merged object at that key alone. */
  lemma MergeOneMore(current: Fields, done: Fields, key: string, value: Json)
    requires key !in done
    ensures var before := Merge(current, done); var after := Merge(current, done[key := value]);
            && (key in before <==> key in current) && (key in current ==> before[key] == current[key])
            && after == (if value.Null? then before - {key}
                         else if key in current && current[key].Object? && value.Object?
                         then before[key := Object(Merge(current[key].fields, value.fields))]
                         else before[key := value])
  {}

  // --- Where the merge agrees with the standard ----------------------------------------------

  /** No null inside: neither the value itself nor, through objects, any member. */
  ghost predicate NullFree(j: Json)
    decreases j
  {
    !j.Null? && (j.Object? ==> forall k :: k in j.fields ==> NullFree(j.fields[k]))
  }

  /** Every object the patch puts where the current document has no object is free of nulls;
      equivalently, every nested null of the patch meets only objects on its way in. */
  ghost predicate Compatible(current: Fields, patch: Fields)
    decreases Object(patch)
  {
    forall k :: k in patch && patch[k].Object? ==>
      if k in current && current[k].Object? then Compatible(current[k].fields, patch[k].fields)
      else NullFree(patch[k])
  }

  lemma {:induction false} PatchOfNothing(target: Json, patch: Json)
    requires !target.Object? && !patch.Null?
    ensures MergePatch(target, patch) == patch <==> NullFree(patch)
    decreases patch
  {
    if patch.Object? {
      var out := MergePatch(target, patch);
      forall k | k in patch.fields && !patch.fields[k].Null?
        ensures MergePatch(Null, patch.fields[k]) == patch.fields[k] <==> NullFree(patch.fields[k])
      {
        PatchOfNothing(Null, patch.fields[k]);
      }
      if NullFree(patch) {
        forall k | k in patch.fields ensures k in out.fields && out.fields[k] == patch.fields[k] {
          assert NullFree(patch.fields[k]);
        }
        assert out.fields == patch.fields;
      } else {
        var k :| k in patch.fields && !NullFree(patch.fields[k]);
        assert out.fields != patch.fields by {
          assert k !in out.fields || out.fields[k] != patch.fields[k];
        }
      }
    }
  }

  /** The merge is the standard's exactly on compatible patches. */
  lemma {:induction false} MergeIsMergePatch(current: Fields, patch: Fields)
    ensures Object(Merge(current, patch)) == MergePatch(Object(current), Object(patch)) <==> Compatible(current, patch)
    decreases Object(patch)
  {
    var ours := Merge(current, patch);
    var theirs := MergePatch(Object(current), Object(patch)).fields;
    assert ours.Keys == theirs.Keys;
    forall k | k in patch && !patch[k].Null?
      ensures k in ours && k in theirs
      ensures ours[k] == theirs[k] <==>
              (patch[k].Object? ==>
                 if k in current && current[k].Object? then Compatible(current[k].fields, patch[k].fields)
                 else NullFree(patch[k]))
    {
      var target := if k in current then current[k] else Null;
      assert theirs[k] == MergePatch(target, patch[k]);
      if patch[k].Object? {
        if k in current && current[k].Object? {
          assert current[k] == Object(current[k].fields) && patch[k] == Object(patch[k].fields);
          MergeIsMergePatch(current[k].fields, patch[k].fields);
          assert ours[k] == Object(Merge(current[k].fields, patch[k].fields));
        } else {
          PatchOfNothing(target, patch[k]);
          assert ours[k] == patch[k];
        }
      }
    }
    if Compatible(current, patch) {
      assert ours == theirs;
    } else {
      var k :| k in patch && patch[k].Object? && ours[k] != theirs[k];
    }
  }

  lemma {:induction false} MergeIntoItself(j: Json)
    requires j.Object?
    ensures Merge(j.fields, j.fields) == j.fields <==> NullFree(j)
    decreases j
  {
    var out := Merge(j.fields, j.fields);
    forall k | k in j.fields && j.fields[k].Object?
      ensures k in out && (out[k] == j.fields[k] <==> NullFree(j.fields[k]))
    {
      MergeIntoItself(j.fields[k]);
    }
    if NullFree(j) {
      forall k | k in j.fields ensures k in out && out[k] == j.fields[k] {
        assert NullFree(j.fields[k]);
      }
      assert out == j.fields;
    } else {
      var k :| k in j.fields && !NullFree(j.fields[k]);
      assert k !in out || out[k] != j.fields[k];
    }
  }

  /** Applying a patch twice is applying it once exactly on compatible patches. */
  lemma {:induction false} MergeIsIdempotent(current: Fields, patch: Fields)
    ensures Merge(Merge(current, patch), patch) == Merge(current, patch) <==> Compatible(current, patch)
    decreases Object(patch)
  {
    var once := Merge(current, patch);
    var twice := Merge(once, patch);
    assert once.Keys == twice.Keys;
    forall k | k in patch && !patch[k].Null?
      ensures k in once && k in twice
      ensures once[k] == twice[k] <==>
              (patch[k].Object? ==>
                 if k in current && current[k].Object? then Compatible(current[k].fields, patch[k].fields)
                 else NullFree(patch[k]))
    {
      if patch[k].Object? {
        if k in current && current[k].Object? {
          MergeIsIdempotent(current[k].fields, patch[k].fields);
        } else {
          MergeIntoItself(patch[k]);
        }
      }
    }
    if Compatible(current, patch) {
      assert once == twice;
    } else {
      var k :| k in patch && patch[k].Object? && once[k] != twice[k];
    }
  }

  /** Patches that touch different top-level keys commute. */
  lemma DisjointPatchesCommute(current: Fields, p: Fields, q: Fields)
    requires p.Keys !! q.Keys
    ensures Merge(Merge(current, p), q) == Merge(Merge(current, q), p)
  {}

  /** A nested null on a key that is absent is stored the first time and acts the second. */
  lemma NestedNullActsLate()
    ensures var patch: Fields := map["led" := Object(map["blink" := Null])];
            && Merge(map[], patch) == patch
            && Merge(Merge(map[], patch), patch) == map["led" := Object(map[])]
            && MergePatch(Object(map[]), Object(patch)) == Object(map["led" := Object(map[])])
  {}
}
