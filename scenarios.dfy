/** A short session with the engine, stated as a method whose result is pinned down. */
module Scenarios {
  import opened Wrappers
  import opened Types
  import opened Text
  import opened Engine

  /**
   * Create a cluster, destroy it, create another: the destroy succeeds and frees id 0, yet
   * the second cluster gets id 1. A request for no VM and no private network needs no
   * backend call, and neither does destroying the cluster it built.
   */
  method IdsAreNotReused() returns (first: int, destroyed: int, freed: bool, second: int)
    ensures first == 0 && destroyed == 0 && freed && second == 1
  {
    var engine := new CommandEngine("secret", s => s, s => None);
    var be := new Backend((history, call) => None);
    var spec := ClusterSpec(0, [("outside", NetSetting("public", "192.168.1.1"))], []);
    var salt := (k: nat) => "0.5";
    var create := Command("1700000000", "1700000000secret", 0, Some(spec), []);
    assert engine.Authentic(create);
    engine.CreateNeedsNoBackend(spec, salt, be.respond, be.history, 0);
    var r1 := engine.Run(Some(create), salt, be);
    first := r1.value.clusters[0].id;
    var destroy := Command("1700000000", "1700000000secret", 1, None, ["0"]);
    assert engine.Authentic(destroy);
    assert ParseInt("0") == Some(0);
    var r2 := engine.Run(Some(destroy), salt, be);
    destroyed := r2.value.code;
    freed := 0 !in engine.clusters;
    engine.CreateNeedsNoBackend(spec, salt, be.respond, be.history, 1);
    var r3 := engine.Run(Some(create), salt, be);
    second := r3.value.clusters[0].id;
  }
}
