/** The subject catalog, an ordered list of (subject id, display name) pairs.
    Its contents live in a module that is not part of this model, so every
    user of the catalog takes it as a parameter. */
module Catalog {
  import opened Results
  import CrudSpec

  /** `catalog.get(subject_id)`: the name of the first entry with that id. */
  function Lookup(catalog: seq<(string, string)>, id: string): (r: Option<string>)
    ensures r.None? <==> forall i | 0 <= i < |catalog| :: catalog[i].0 != id
    ensures r.Some? ==> exists i | 0 <= i < |catalog| :: catalog[i] == (id, r.value)
  {
    if |catalog| == 0 then None
    else if catalog[0].0 == id then Some(catalog[0].1)
    else
      var rest := Lookup(catalog[1..], id);
      assert rest.Some? ==> exists i | 0 <= i < |catalog| - 1 :: catalog[1..][i] == (id, rest.value);
      rest
  }

  /** With distinct ids, the lookup finds each entry's own name. */
  lemma {:induction false} LookupEntry(catalog: seq<(string, string)>, i: int)
    requires CrudSpec.DistinctIds(catalog) && 0 <= i < |catalog|
    ensures Lookup(catalog, catalog[i].0) == Some(catalog[i].1)
  {
    if i > 0 {
      assert CrudSpec.DistinctIds(catalog[1..]);
      assert catalog[1..][i - 1] == catalog[i];
      LookupEntry(catalog[1..], i - 1);
    }
  }
}
