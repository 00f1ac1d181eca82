/** The generation of a fresh model id in model creation. */
module ModelIds {

  /**
   * `uuid.uuid4().hex`, drawn again for as long as the id names an existing
   * metadata file. `draws` are the ids the generator hands out, in order.
   */
  method FreshModelId(existing: set<string>, draws: seq<string>) returns (id: string)
    requires exists k :: 0 <= k < |draws| && draws[k] !in existing
    ensures id !in existing
    ensures exists t :: 0 <= t < |draws| && draws[t] == id && forall j :: 0 <= j < t ==> draws[j] in existing
  {
    var t := 0;
    id := draws[0];
    while id in existing
      invariant 0 <= t < |draws| && id == draws[t]
      invariant forall j :: 0 <= j < t ==> draws[j] in existing
      invariant exists k :: t <= k < |draws| && draws[k] !in existing
      decreases |draws| - t
    {
      t := t + 1;
      id := draws[t];
    }
  }
}
