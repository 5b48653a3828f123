/** JSON values (`serde_json::Value`) and the JSON merge-patch algorithm of
    section 2 of RFC 7386, as `json_patch::merge` implements it. */
module Json {
  import opened Wrappers

  /** A JSON value. Numbers are integers here; objects are finite maps from
      member name to value (serde_json's default object is a sorted map, so
      member order carries no meaning). */
  datatype Json =
    | Null
    | Bool(b: bool)
    | Number(n: int)
    | Str(s: string)
    | Array(items: seq<Json>)
    | Object(members: map<string, Json>)

  /** The parser and the serialiser `serde_json::from_str` and
      `serde_json::to_string`, as uninterpreted parameters. */
  datatype Codec = Codec(parse: string -> Option<Json>, serialize: Json -> Option<string>)

  /** The members a merge starts from: the target's own when it is an object,
      none otherwise (section 2 of RFC 7386 resets a non-object target to `{}`). */
  function MembersOf(target: Json): map<string, Json> {
    if target.Object? then target.members else map[]
  }

  /** `MergePatch(target, patch)` of section 2 of RFC 7386. */
  function MergePatch(target: Json, patch: Json): (r: Json)
    decreases patch
    // A patch that is not an object replaces the target wholesale.
    ensures !patch.Object? ==> r == patch
    // An object patch always yields an object ...
    ensures patch.Object? ==> r.Object?
    // ... whose members are the patch's non-null members together with the
    // target's members that the patch does not mention.
    ensures patch.Object? ==> forall k ::
      k in r.members <==>
        (k in patch.members && !patch.members[k].Null?) ||
        (k !in patch.members && k in MembersOf(target))
    // A `null` patch member deletes the key.
    ensures patch.Object? ==> forall k ::
      k in patch.members && patch.members[k].Null? ==> k !in r.members
    // Target members absent from the patch are unchanged.
    ensures patch.Object? ==> forall k ::
      k in MembersOf(target) && k !in patch.members ==>
        k in r.members && r.members[k] == MembersOf(target)[k]
  {
    match patch
    case Object(pm) =>
      var tm := MembersOf(target);
      Object(map k | k in tm.Keys + pm.Keys && !(k in pm && pm[k].Null?) ::
        if k in pm then MergePatch(if k in tm then tm[k] else Null, pm[k]) else tm[k])
    case _ => patch
  }

  /** Applying the same patch twice has the effect of applying it once. */
  lemma {:induction false} MergePatchIdempotent(target: Json, patch: Json)
    ensures MergePatch(MergePatch(target, patch), patch) == MergePatch(target, patch)
    decreases patch
  {
    match patch
    case Object(pm) =>
      var once := MergePatch(target, patch);
      var twice := MergePatch(once, patch);
      var tm := MembersOf(target);
      forall k | k in pm && !pm[k].Null?
        ensures twice.members[k] == once.members[k]
      {
        var t := if k in tm then tm[k] else Null;
        MergePatchIdempotent(t, pm[k]);
      }
      assert twice.members == once.members;
    case _ =>
  }

  /** A non-null patch member is merged recursively into the target's member of
      that name, or into nothing (`null`) when the target has none. */
  lemma MergePatchMember(target: Json, patch: Json, k: string)
    requires patch.Object? && k in patch.members && !patch.members[k].Null?
    ensures k in MergePatch(target, patch).members
    ensures MergePatch(target, patch).members[k] ==
      MergePatch(if k in MembersOf(target) then MembersOf(target)[k] else Null, patch.members[k])
  {
  }

  /** The worked example: `{"a":1,"b":2}` patched by `{"b":null,"c":3}` is
      `{"a":1,"c":3}`. */
  lemma MergePatchExample()
    ensures MergePatch(Object(map["a" := Number(1), "b" := Number(2)]),
                       Object(map["b" := Null, "c" := Number(3)]))
         == Object(map["a" := Number(1), "c" := Number(3)])
  {
    var target := Object(map["a" := Number(1), "b" := Number(2)]);
    var patch := Object(map["b" := Null, "c" := Number(3)]);
    var r := MergePatch(target, patch);
    MergePatchMember(target, patch, "c");
    assert r.members["c"] == Number(3);
    assert r.members["a"] == Number(1);
    assert r.members.Keys == {"a", "c"};
  }
}
