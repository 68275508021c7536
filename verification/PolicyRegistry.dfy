/**
 The policy registry contract's storage and its probe loop.
 */
module PolicyRegistry {
  import opened PolicyVersions

  datatype Published = Version(version: nat) | VersionOverflow

  class Registry {
    var policies: map<Key, Policy>

    constructor ()
      ensures policies == map[]
    {
      policies := map[];
    }

    /** Probes 1, 2, ... until a key is free; the count `k` of earlier versions bounds the probing. */
    method PublishPolicy(c: Publication, ghost k: nat, maxVersion: nat) returns (r: Published)
      requires DenseUpTo(policies, c.name, k) && maxVersion == Modulus() - 1
      modifies this
      ensures k < maxVersion ==>
                && r == Version(k + 1)
                && policies == old(policies)[KeyOf(c.name, k + 1) := Entry(c, k + 1)]
      ensures k == maxVersion ==> r == VersionOverflow && policies == old(policies)
    {
      var version := 1;
      var key := KeyOf(c.name, version);
      assert 1 < Modulus() by { assert Pow256(32) == 256 * Pow256(31); }
      while CreatedAt(policies, key) != 0
        invariant 1 <= version <= k + 1 && version < Modulus()
        invariant key == KeyOf(c.name, version)
        decreases k + 1 - version
      {
        if version == maxVersion {
          return VersionOverflow;
        }
        version := version + 1;
        key := KeyOf(c.name, version);
      }
      policies := policies[key := Entry(c, version)];
      r := Version(version);
    }
  }

  /** A run of publications leaves exactly the storage PolicyVersions describes. */
  method PublishAll(registry: Registry, calls: seq<Publication>, maxVersion: nat)
    requires registry.policies == map[] && maxVersion == Modulus() - 1 && |calls| <= maxVersion
    requires forall i :: 0 <= i < |calls| ==> calls[i].time > 0
    modifies registry
    ensures registry.policies == After(calls)
  {
    for i := 0 to |calls|
      invariant registry.policies == After(calls[..i])
    {
      assert calls[..i + 1][..i] == calls[..i];
      VersionsAreDense(calls[..i], calls[i].name);
      TimesBounded(calls[..i], calls[i].name);
      OneMorePublication(calls[..i + 1], calls[i].name);
      var r := registry.PublishPolicy(calls[i], TimesPublished(calls[..i], calls[i].name), maxVersion);
    }
    assert calls[..|calls|] == calls;
  }
}
