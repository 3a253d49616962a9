/**
 * Narrowing the parents to those named on the command line
 * (`filter_parents` in `src/lib.rs`).
 */
module Lib {
  import opened Wrappers
  import opened Data
  import opened Read

  const NoParentsFound: string := "No FROM tags with versions were found in the Dockerfile(s)"
  const NoAllowedParentsFound: string := "None of the FROM tags given with --parent/-p were found in the Dockerfile(s)"

  /** Whether a parent passes the `--parent/-p` filter; an empty list lets every parent through. */
  predicate Allowed(allow: seq<string>, p: Parent) {
    allow == [] || p.name in allow
  }

  /**
   * With no names given, all parents are kept, and finding none is an
   * error. With names, exactly the parents with one of those names are
   * kept, and keeping none is an error.
   */
  function FilterParents(all: ParentSet, allow: seq<string>): (r: Result<ParentSet>)
    ensures r.Err? <==> forall k :: k in all ==> !Allowed(allow, all[k])
    ensures r.Err? ==> r.error == (if allow == [] then NoParentsFound else NoAllowedParentsFound)
    ensures r.Ok? ==> r.value != map[]
    ensures r.Ok? ==> forall k :: k in r.value <==> k in all && Allowed(allow, all[k])
    ensures r.Ok? ==> forall k :: k in r.value ==> r.value[k] == all[k]
  {
    if allow == [] then
      if all == map[] then Err(NoParentsFound) else Ok(all)
    else
      var names := set n | n in allow;
      var parents := map k | k in all && all[k].name in names :: all[k];
      assert forall k :: k in all ==> (k in parents <==> Allowed(allow, all[k]));
      if parents == map[] then
        Err(NoAllowedParentsFound)
      else
        assert exists k :: k in parents;
        Ok(parents)
  }

  /** Filtering keeps every parent under its own key. */
  lemma FilterParentsKeyed(all: ParentSet, allow: seq<string>)
    requires Keyed(all) && FilterParents(all, allow).Ok?
    ensures Keyed(FilterParents(all, allow).value)
  {
  }

  /** The allow-list acts as a set of names: order and repetitions do not matter. */
  lemma FilterParentsBySet(all: ParentSet, allow1: seq<string>, allow2: seq<string>)
    requires forall n :: n in allow1 <==> n in allow2
    ensures FilterParents(all, allow1) == FilterParents(all, allow2)
  {
    assert allow1 == [] <==> allow2 == [] by {
      if allow1 != [] { assert allow1[0] in allow2; }
      if allow2 != [] { assert allow2[0] in allow1; }
    }
    assert (set n | n in allow1) == (set n | n in allow2);
  }
}
