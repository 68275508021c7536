/**
 Versions of published policies (contracts/src/PolicyRegistry.sol): the contract probes version after
 version for a free key, and the keys of a name stay dense.
 */
module PolicyVersions {

  type Bytes = seq<int>

  function Pow256(n: nat): (p: nat)
    ensures p >= 1
  {
    if n == 0 then 1 else 256 * Pow256(n - 1)
  }

  /** Big-endian digits of a number, `n` bytes wide. */
  function BigEndian(v: nat, n: nat): (b: Bytes)
    ensures |b| == n
  {
    if n == 0 then [] else BigEndian(v / 256, n - 1) + [v % 256]
  }

  /** One more than the largest uint256. */
  ghost function Modulus(): nat { Pow256(32) }

  /** keccak256 of the packed encoding: the name's bytes, then the version as a 32-byte word. */
  datatype Key = Keccak256(preimage: Bytes)

  function KeyOf(name: Bytes, version: nat): Key { Keccak256(name + BigEndian(version, 32)) }

  lemma {:induction false} BigEndianIsInjective(a: nat, b: nat, n: nat)
    requires a < Pow256(n) && b < Pow256(n) && BigEndian(a, n) == BigEndian(b, n)
    ensures a == b
  {
    if n > 0 {
      var x, y := BigEndian(a, n), BigEndian(b, n);
      assert x[n - 1] == a % 256 && y[n - 1] == b % 256;
      assert x[..n - 1] == BigEndian(a / 256, n - 1) && y[..n - 1] == BigEndian(b / 256, n - 1);
      BigEndianIsInjective(a / 256, b / 256, n - 1);
    }
  }

  /** Different (name, version) pairs never share a key. */
  lemma KeyIsInjective(name: Bytes, version: nat, name': Bytes, version': nat)
    requires version < Modulus() && version' < Modulus()
    requires KeyOf(name, version) == KeyOf(name', version')
    ensures name == name' && version == version'
  {
    var w, w' := BigEndian(version, 32), BigEndian(version', 32);
    var p, p' := name + w, name' + w';
    assert p[|p| - 32..] == w && p'[|p'| - 32..] == w';
    assert p[..|p| - 32] == name && p'[..|p'| - 32] == name';
    BigEndianIsInjective(version, version', 32);
  }

  datatype Policy = Policy(name: Bytes, policyHash: Bytes, uri: Bytes, version: nat, author: nat, createdAt: nat)

  /** `createdAt` of a key that was never written reads as zero. */
  function CreatedAt(policies: map<Key, Policy>, k: Key): nat {
    if k in policies then policies[k].createdAt else 0
  }

  /** The versions of `name` are exactly 1..k, each under its own key. */
  ghost predicate DenseUpTo(policies: map<Key, Policy>, name: Bytes, k: nat) {
    && k < Modulus()
    && forall v {:trigger KeyOf(name, v)} :: 0 <= v < Modulus() ==>
         (CreatedAt(policies, KeyOf(name, v)) != 0 <==> 1 <= v <= k)
  }

  /** Every stored policy sits under the key of its own name and version, with a creation time. */
  ghost predicate Filed(policies: map<Key, Policy>) {
    forall key :: key in policies ==>
      && policies[key].createdAt != 0 && policies[key].version < Modulus()
      && key == KeyOf(policies[key].name, policies[key].version)
  }

  /** Adding version k+1 of one name. */
  lemma PublishingExtends(policies: map<Key, Policy>, p: Policy, k: nat, other: Bytes, j: nat)
    requires DenseUpTo(policies, p.name, k) && DenseUpTo(policies, other, j)
    requires p.version == k + 1 < Modulus() && p.createdAt != 0
    ensures KeyOf(p.name, k + 1) in policies ==> policies[KeyOf(p.name, k + 1)].createdAt == 0
    ensures DenseUpTo(policies[KeyOf(p.name, k + 1) := p], other, if other == p.name then k + 1 else j)
  {
    var key := KeyOf(p.name, k + 1);
    var after := policies[key := p];
    assert CreatedAt(policies, key) == 0;
    forall v {:trigger KeyOf(other, v)} | 0 <= v < Modulus()
      ensures CreatedAt(after, KeyOf(other, v)) != 0 <==> 1 <= v <= if other == p.name then k + 1 else j
    {
      if KeyOf(other, v) == key {
        KeyIsInjective(other, v, p.name, k + 1);
      } else {
        assert CreatedAt(after, KeyOf(other, v)) == CreatedAt(policies, KeyOf(other, v));
        if other == p.name {
          assert CreatedAt(policies, KeyOf(p.name, v)) != 0 <==> 1 <= v <= k;
          assert v != k + 1;
        }
      }
    }
  }

  /** A published policy; the sender and the block time come from the chain. */
  datatype Publication = Publication(name: Bytes, policyHash: Bytes, uri: Bytes, author: nat, time: nat)

  function TimesPublished(calls: seq<Publication>, name: Bytes): nat {
    if calls == [] then 0
    else TimesPublished(calls[..|calls| - 1], name) + if calls[|calls| - 1].name == name then 1 else 0
  }

  lemma {:induction false} TimesBounded(calls: seq<Publication>, name: Bytes)
    ensures TimesPublished(calls, name) <= |calls|
  {
    if calls != [] {
      TimesBounded(calls[..|calls| - 1], name);
    }
  }

  function Entry(c: Publication, version: nat): Policy {
    Policy(c.name, c.policyHash, c.uri, version, c.author, c.time)
  }

  /** Storage after a run of publications, each taking the next version of its name. */
  function After(calls: seq<Publication>): map<Key, Policy> {
    if calls == [] then map[]
    else
      var before, c := calls[..|calls| - 1], calls[|calls| - 1];
      var version := TimesPublished(before, c.name) + 1;
      After(before)[KeyOf(c.name, version) := Entry(c, version)]
  }

  /** In every reachable state the versions of each name are exactly 1..k, k being how often it was
      published, and nothing stored earlier has changed. */
  lemma {:induction false} VersionsAreDense(calls: seq<Publication>, name: Bytes)
    requires |calls| < Modulus() && forall i :: 0 <= i < |calls| ==> calls[i].time > 0
    ensures DenseUpTo(After(calls), name, TimesPublished(calls, name))
    decreases |calls|
  {
    TimesBounded(calls, name);
    if calls != [] {
      var before, c := calls[..|calls| - 1], calls[|calls| - 1];
      VersionsAreDense(before, name);
      VersionsAreDense(before, c.name);
      TimesBounded(before, c.name);
      var k := TimesPublished(before, c.name);
      OneMorePublication(calls, name);
      StaysDense(After(before), After(calls), Entry(c, k + 1), k, name, TimesPublished(before, name),
                 TimesPublished(calls, name));
    }
  }

  lemma StaysDense(was: map<Key, Policy>, now: map<Key, Policy>, p: Policy, k: nat, other: Bytes, j: nat, n: nat)
    requires DenseUpTo(was, p.name, k) && DenseUpTo(was, other, j)
    requires p.version == k + 1 < Modulus() && p.createdAt != 0
    requires now == was[KeyOf(p.name, k + 1) := p] && n == if other == p.name then k + 1 else j
    ensures DenseUpTo(now, other, n)
  {
    PublishingExtends(was, p, k, other, j);
  }

  lemma OneMorePublication(calls: seq<Publication>, name: Bytes)
    requires calls != []
    ensures var before, c := calls[..|calls| - 1], calls[|calls| - 1];
            var k := TimesPublished(before, c.name);
            && After(calls) == After(before)[KeyOf(c.name, k + 1) := Entry(c, k + 1)]
            && TimesPublished(calls, name) == if name == c.name then k + 1 else TimesPublished(before, name)
  {
  }

  /** Every entry sits under the key of its own name and version, and publishing touches no other entry. */
  lemma {:induction false} EntriesAreKept(calls: seq<Publication>)
    requires |calls| < Modulus() && forall i :: 0 <= i < |calls| ==> calls[i].time > 0
    ensures Filed(After(calls))
    ensures calls != [] ==> forall key :: key in After(calls[..|calls| - 1]) ==>
              key in After(calls) && After(calls)[key] == After(calls[..|calls| - 1])[key]
    decreases |calls|
  {
    if calls != [] {
      var before, c := calls[..|calls| - 1], calls[|calls| - 1];
      EntriesAreKept(before);
      TimesBounded(before, c.name);
      VersionsAreDense(before, c.name);
      OneMorePublication(calls, c.name);
      FilingExtends(After(before), Entry(c, TimesPublished(before, c.name) + 1), TimesPublished(before, c.name));
    }
  }

  lemma FilingExtends(policies: map<Key, Policy>, p: Policy, k: nat)
    requires Filed(policies) && DenseUpTo(policies, p.name, k)
    requires p.version == k + 1 < Modulus() && p.createdAt != 0
    ensures KeyOf(p.name, k + 1) !in policies
    ensures Filed(policies[KeyOf(p.name, k + 1) := p])
  {
    assert CreatedAt(policies, KeyOf(p.name, k + 1)) == 0;
  }

  /** Looking up a name and a version finds what was published as that version of that name: for each publication
      of a run, its own text, author and time, under the number of times its name had been published by then. */
  lemma {:induction false} LookupFindsPublication(calls: seq<Publication>, k: nat)
    requires |calls| < Modulus() && forall i :: 0 <= i < |calls| ==> calls[i].time > 0
    requires k < |calls|
    ensures var c, v := calls[k], TimesPublished(calls[..k + 1], calls[k].name);
            && KeyOf(c.name, v) in After(calls)
            && After(calls)[KeyOf(c.name, v)] == Policy(c.name, c.policyHash, c.uri, v, c.author, c.time)
    decreases |calls|
  {
    var n := |calls| - 1;
    var before := calls[..n];
    if k == n {
      assert calls[..k + 1] == calls;
    } else {
      assert before[..k + 1] == calls[..k + 1];
      LookupFindsPublication(before, k);
      EntriesAreKept(calls);
    }
  }
}
