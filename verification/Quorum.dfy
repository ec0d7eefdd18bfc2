/** Joint majorities and the probe loop that gathers them. */
module Quorum {
  import opened Prelude

  type Config = set<nat>

  /** A majority of every configuration, none of them empty. */
  predicate JointQuorum(configs: seq<Config>, healthy: set<nat>) {
    configs != [] && forall i :: 0 <= i < |configs| ==> configs[i] != {} && |configs[i] * healthy| > |configs[i]| / 2
  }

  function Voters(configs: seq<Config>): set<nat> {
    if configs == [] then {} else configs[0] + Voters(configs[1..])
  }

  /** A committed membership. */
  datatype Members = Members(logId: Option<nat>, configs: seq<Config>)

  function VotersOf(m: Members): set<nat> {
    Voters(m.configs)
  }

  /** Voters found healthy for a membership, and the boot time up to which that was checked. */
  datatype VoterQuorum = VoterQuorum(members: Members, sampled: set<nat>, checkedBoot: nat)

  lemma {:induction false} ConfigInVoters(configs: seq<Config>, i: nat)
    requires i < |configs|
    ensures configs[i] <= Voters(configs)
  {
    if i > 0 {
      ConfigInVoters(configs[1..], i - 1);
    }
  }

  lemma {:induction false} VotersIff(configs: seq<Config>, v: nat)
    ensures v in Voters(configs) <==> exists i :: 0 <= i < |configs| && v in configs[i]
  {
    if configs != [] {
      VotersIff(configs[1..], v);
      if v in Voters(configs[1..]) {
        var i :| 0 <= i < |configs[1..]| && v in configs[1..][i];
        assert configs[i + 1] == configs[1..][i];
      }
      forall i | 0 < i < |configs| && v in configs[i]
        ensures v in Voters(configs[1..])
      {
        assert configs[1..][i - 1] == configs[i];
      }
    }
  }

  /** In every configuration more members are healthy than not, and there is a configuration. */
  ghost predicate Outnumber(configs: seq<Config>, healthy: set<nat>) {
    configs != [] && forall c :: c in configs ==> |c * healthy| > |c - healthy|
  }

  lemma Halves(c: Config, healthy: set<nat>)
    ensures |c * healthy| + |c - healthy| == |c|
    ensures c != {} && |c * healthy| > |c| / 2 <==> |c * healthy| > |c - healthy|
  {
    assert c == c * healthy + (c - healthy);
  }

  /** A bare majority of every configuration is enough, and nothing less is. */
  lemma JointQuorumIff(configs: seq<Config>, healthy: set<nat>)
    ensures JointQuorum(configs, healthy) <==> Outnumber(configs, healthy)
  {
    forall c | c in configs
      ensures c != {} && |c * healthy| > |c| / 2 <==> |c * healthy| > |c - healthy|
    {
      Halves(c, healthy);
    }
    assert forall i :: 0 <= i < |configs| ==> configs[i] in configs;
  }

  /** Two majorities of one set have a member in common. */
  lemma MajoritiesMeet(voters: Config, a: set<nat>, b: set<nat>)
    requires |voters * a| > |voters| / 2 && |voters * b| > |voters| / 2
    ensures voters * a * b != {}
  {
    if voters * a * b == {} {
      forall v | v in voters * a
        ensures v !in voters * b
      {
        assert v !in voters * a * b;
      }
      assert |voters * a + voters * b| == |voters * a| + |voters * b|;
      SubsetSize(voters * a + voters * b, voters);
    }
  }

  /**
   * Quorums of two memberships share a voter in every configuration the memberships share:
   * one membership with itself, and an old or a new configuration with their joint one.
   */
  lemma QuorumsIntersect(configs: seq<Config>, configs': seq<Config>, a: set<nat>, b: set<nat>, shared: Config)
    requires JointQuorum(configs, a) && JointQuorum(configs', b) && shared in configs && shared in configs'
    ensures exists v :: v in shared && v in a && v in b
  {
    MajoritiesMeet(shared, a, b);
    var v :| v in shared * a * b;
  }

  lemma QuorumGrows(configs: seq<Config>, a: set<nat>, b: set<nat>)
    requires JointQuorum(configs, a) && a <= b
    ensures JointQuorum(configs, b)
  {
    forall i | 0 <= i < |configs|
      ensures |configs[i] * b| > |configs[i]| / 2
    {
      SubsetSize(configs[i] * a, configs[i] * b);
    }
  }

  /** Everyone a full round of probes would find healthy. */
  function FullRound(voters: set<nat>, local: nat, responding: set<nat>): set<nat> {
    {local} + voters * responding
  }

  /**
   * Probes the other voters in some order and stops as soon as the healthy ones form a joint
   * quorum. The verdict is the one a full round would give.
   */
  method ProbeVoters(configs: seq<Config>, voters: set<nat>, local: nat, responding: set<nat>) returns (healthy: set<nat>)
    requires local in voters
    ensures {local} <= healthy <= voters && healthy <= FullRound(voters, local, responding)
    ensures JointQuorum(configs, healthy) <==> JointQuorum(configs, FullRound(voters, local, responding))
  {
    healthy := {local};
    var rest := voters - {local};
    while rest != {}
      invariant rest <= voters - {local}
      invariant {local} <= healthy <= voters
      invariant healthy == {local} + (voters - rest) * responding
    {
      var id :| id in rest;
      rest := rest - {id};
      if id in responding {
        healthy := healthy + {id};
        if JointQuorum(configs, healthy) {
          QuorumGrows(configs, healthy, FullRound(voters, local, responding));
          return;
        }
      }
    }
    assert healthy == FullRound(voters, local, responding);
  }

  /** With a single voter, only that voter itself is a quorum. */
  lemma SingleVoterQuorum(configs: seq<Config>, local: nat)
    requires |Voters(configs)| == 1 && JointQuorum(configs, {local})
    ensures {local} <= Voters(configs)
  {
    ConfigInVoters(configs, 0);
    assert configs[0] * {local} != {};
  }
}
