/** Identifier generation (`uuid.NewV4().String()`), modelled as a choice of a
    non-empty string that is not yet a key of the store asking for it. */
module Ids {
  import opened Grpc

  /** An upper bound on the lengths of the strings in `taken`. */
  ghost function MaxLen(taken: set<string>): (n: nat)
    ensures forall s :: s in taken ==> |s| <= n
    decreases taken
  {
    if taken == {} then 0
    else
      var x :| x in taken;
      var m := MaxLen(taken - {x});
      if |x| > m then |x| else m
  }

  /** A finite set of identifiers never exhausts the non-empty strings. */
  lemma FreshExists(taken: set<string>)
    ensures exists s :: s != "" && s !in taken
  {
    var s := seq(MaxLen(taken) + 1, _ => 'x');
    assert s !in taken;
  }

  /** A fresh identifier, or `None` when the random source fails (the callers turn
      that into an `Internal` status). Which admissible outcome occurs is left open. */
  method NewV4(taken: set<string>) returns (r: Option<string>)
    ensures r.Some? ==> r.value != "" && r.value !in taken
  {
    FreshExists(taken);
    var id :| id != "" && id !in taken;
    r := Some(id);
  }
}
