/** JSON merge patch (internal/core/httpjson.go), section 2 of RFC 7386.

    Values are decoded JSON: an object is a map, so its members have no order and no repeats. A missing
    target is null, as a missing map entry is in the code. */
module MergePatch {
  import opened Wrappers

  datatype Json = Null | Bool(b: bool) | Number(n: real) | Text(s: string) | Array(elems: seq<Json>) | Object(members: map<string, Json>)

  /** The RFC's procedure: null removes, an object merges member by member, anything else replaces. */
  function Merged(target: Json, patch: Json): Json
    decreases patch, 1
  {
    if !patch.Object? then patch
    else Object(MergedMembers(MembersOf(target), patch, patch.members.Keys))
  }

  /** The target's members once the patch's members in `done` have been dealt with. */
  function MergedMembers(members: map<string, Json>, patch: Json, done: set<string>): map<string, Json>
    requires patch.Object? && done <= patch.members.Keys
    decreases patch, 0
  {
    map k | k in members.Keys + done && (k in done ==> patch.members[k] != Null) ::
      if k in done then Merged(MemberOr(members, k), patch.members[k]) else members[k]
  }

  function MembersOf(v: Json): map<string, Json> {
    if v.Object? then v.members else map[]
  }

  function MemberOr(m: map<string, Json>, k: string): Json {
    if k in m then m[k] else Null
  }

  /** Dealing with one more member touches that member alone. */
  lemma MergedStep(members: map<string, Json>, patch: Json, done: set<string>, k: string)
    requires patch.Object? && done <= patch.members.Keys && k in patch.members && k !in done
    ensures var now := MergedMembers(members, patch, done);
            && MergedMembers(members, patch, done + {k}) ==
               (if patch.members[k] == Null then now - {k} else now[k := Merged(MemberOr(members, k), patch.members[k])])
            && MemberOr(now, k) == MemberOr(members, k)
  {}

  /** The loop over the patch's members, in whatever order the map delivers them. */
  method MergeValue(target: Json, patch: Json) returns (r: Json)
    ensures r == Merged(target, patch)
    decreases patch
  {
    if !patch.Object? { return patch; }
    var members := MembersOf(target);
    ghost var before := members;
    var todo := patch.members.Keys;
    assert MergedMembers(before, patch, {}) == before;
    hide MergedMembers;
    while todo != {}
      invariant todo <= patch.members.Keys
      invariant members == MergedMembers(before, patch, patch.members.Keys - todo)
      decreases todo
    {
      var k :| k in todo;
      MergedStep(before, patch, patch.members.Keys - todo, k);
      assert patch.members.Keys - todo + {k} == patch.members.Keys - (todo - {k});
      todo := todo - {k};
      var v := patch.members[k];
      if v == Null {
        members := members - {k};
        continue;
      }
      var merged := MergeValue(MemberOr(members, k), v);
      members := members[k := merged];
    }
    assert patch.members.Keys - todo == patch.members.Keys;
    r := Object(members);
  }

  /** No object has a null member, at any depth reached through objects. */
  ghost predicate NoNullMembers(v: Json) {
    v.Object? ==> forall k <- v.members :: v.members[k] != Null && NoNullMembers(v.members[k])
  }

  /** A member the patch does not name is kept as it was; one it names null is gone; and any other is the merge of
      what was there. */
  lemma Members(target: Json, patch: Json, k: string)
    requires patch.Object?
    ensures Merged(target, patch).Object?
    ensures var before, after := MembersOf(target), Merged(target, patch).members;
            if k !in patch.members then (k in before <==> k in after) && (k in before ==> after[k] == before[k])
            else if patch.members[k] == Null then k !in after
            else k in after && after[k] == Merged(if k in before then before[k] else Null, patch.members[k])
  {}

  // ----- the merge seen from any depth -----

  /** What an object holds at a path of names. */
  function At(v: Json, path: seq<string>): Option<Json> {
    if path == [] then Some(v)
    else if v.Object? && path[0] in v.members then At(v.members[path[0]], path[1..])
    else None
  }

  /** The patch says nothing about the path: following it ends at an object that does not have the next name. */
  predicate Silent(patch: Json, path: seq<string>) {
    path != [] && patch.Object? && (path[0] !in patch.members || Silent(patch.members[path[0]], path[1..]))
  }

  /** Whatever the patch says nothing about stays as it was, at every depth. */
  lemma {:induction false} SilenceKeeps(target: Json, patch: Json, path: seq<string>)
    requires Silent(patch, path)
    ensures At(Merged(target, patch), path) == At(target, path)
    decreases |path|
  {
    var k := path[0];
    Members(target, patch, k);
    if k in patch.members {
      var before := if target.Object? && k in target.members then target.members[k] else Null;
      SilenceKeeps(before, patch.members[k], path[1..]);
      assert patch.members[k] != Null;
    }
  }

  /** Where the patch has a value that is no object, at any depth, that value is there afterwards, and null means
      nothing is; where it has an object, an object is there. */
  lemma {:induction false} SayingSets(target: Json, patch: Json, path: seq<string>)
    requires path != [] && At(patch, path).Some?
    ensures var said := At(patch, path).value;
            if said.Object? then
              At(Merged(target, patch), path).Some? && At(Merged(target, patch), path).value.Object?
            else At(Merged(target, patch), path) == if said.Null? then None else Some(said)
    decreases |path|
  {
    var k := path[0];
    Members(target, patch, k);
    var before := if target.Object? && k in target.members then target.members[k] else Null;
    if |path| > 1 {
      SayingSets(before, patch.members[k], path[1..]);
    }
  }

  /** Applying a patch twice is applying it once. */
  lemma {:induction false} Idempotent(target: Json, patch: Json)
    ensures Merged(Merged(target, patch), patch) == Merged(target, patch)
    decreases patch
  {
    if patch.Object? {
      var once, twice := Merged(target, patch), Merged(Merged(target, patch), patch);
      forall k
        ensures k in twice.members <==> k in once.members
        ensures k in twice.members && k in once.members ==> twice.members[k] == once.members[k]
      {
        Members(target, patch, k);
        Members(once, patch, k);
        if k in patch.members && patch.members[k] != Null {
          Idempotent(MemberOr(MembersOf(target), k), patch.members[k]);
        }
      }
      assert twice.members == once.members;
    }
  }

  /** What is built from a patch has no null members, and neither has what a patch leaves of such a target. */
  lemma {:induction false} LeavesNoNulls(target: Json, patch: Json)
    requires NoNullMembers(target)
    ensures NoNullMembers(Merged(target, patch))
    ensures patch != Null ==> Merged(target, patch) != Null
    decreases patch
  {
    if patch.Object? {
      var old_ := MembersOf(target);
      forall k | k in patch.members && patch.members[k] != Null
        ensures NoNullMembers(Merged(MemberOr(old_, k), patch.members[k])) && Merged(MemberOr(old_, k), patch.members[k]) != Null
      {
        LeavesNoNulls(MemberOr(old_, k), patch.members[k]);
      }
    }
  }

  /** A patch from one value to another: names what goes, what comes and what changes. */
  function Patch(from: Json, goal: Json): Json
    decreases goal
  {
    if !goal.Object? then goal
    else
      var old_ := MembersOf(from);
      Object(map k | k in old_.Keys + goal.members.Keys :: if k in goal.members then Patch(MemberOr(old_, k), goal.members[k]) else Null)
  }

  /** Any value without null members can be reached from any other by one patch. Null members are the exact
      limit: no merge ever produces one. */
  lemma {:induction false} Reaches(from: Json, goal: Json)
    requires NoNullMembers(goal)
    ensures Merged(from, Patch(from, goal)) == goal
    ensures goal != Null ==> Patch(from, goal) != Null
    decreases goal
  {
    if goal.Object? {
      var old_ := MembersOf(from);
      var p := Patch(from, goal);
      forall k | k in goal.members
        ensures Merged(MemberOr(old_, k), p.members[k]) == goal.members[k] && p.members[k] != Null
      {
        Reaches(MemberOr(old_, k), goal.members[k]);
      }
      var r := Merged(from, p);
      forall k
        ensures k in r.members <==> k in goal.members
        ensures k in r.members && k in goal.members ==> r.members[k] == goal.members[k]
      {
        Members(from, p, k);
      }
      assert r.members == goal.members;
    }
  }
}
