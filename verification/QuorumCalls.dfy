/** When a quorum call is answered, and with what: its three steps after the samples, in plain terms. */
module QuorumCalls {
  import opened Prelude
  import opened Quorum
  import opened ClockRuns

  /** Every configuration consists of this one voter. */
  ghost predicate Alone(configs: seq<Config>, v: nat) {
    configs != [] && forall c :: c in configs ==> c == {v}
  }

  ghost predicate SeveralVoters(configs: seq<Config>) {
    exists a, b :: a != b && a in Voters(configs) && b in Voters(configs)
  }

  lemma SeveralIff(configs: seq<Config>)
    ensures SeveralVoters(configs) <==> |Voters(configs)| > 1
  {
    var voters := Voters(configs);
    if SeveralVoters(configs) {
      var a, b :| a != b && a in voters && b in voters;
      SubsetSize({a, b}, voters);
    }
    if |voters| > 1 {
      var a :| a in voters;
      assert |voters - {a}| == |voters| - 1;
      var b :| b in voters - {a};
      assert a != b;
    }
  }

  lemma AloneIff(configs: seq<Config>, v: nat)
    ensures Alone(configs, v) <==> |Voters(configs)| == 1 && JointQuorum(configs, {v})
  {
    JointQuorumIff(configs, {v});
    if |Voters(configs)| == 1 && JointQuorum(configs, {v}) {
      SingleVoterQuorum(configs, v);
      assert |Voters(configs) - {v}| == 0;
      forall c | c in configs
        ensures c == {v}
      {
        var i :| 0 <= i < |configs| && configs[i] == c;
        ConfigInVoters(configs, i);
        assert c * {v} != {};
      }
    }
    if Alone(configs, v) {
      forall u
        ensures u in Voters(configs) <==> u == v
      {
        VotersIff(configs, u);
        assert configs[0] in configs && forall i :: 0 <= i < |configs| ==> configs[i] in configs;
      }
      assert Voters(configs) == {v};
      assert {v} * {v} == {v} && {v} - {v} == {};
    }
  }


  /**
   * A call that has read the membership is answered at once exactly if this node is the only voter of
   * every configuration; it goes on exactly if there are several voters, and fails otherwise.
   */
  lemma ReadMembersLaw(s: State, t: nat)
    requires TaskOf(s, t).GotBefore?
    ensures var (s', task) := (Step(s, ReadMembers(t)), TaskOf(s, t));
            && (if Alone(s.members.configs, s.local) then
                  s'.answers == s.answers + [Given(s, Single, VoterQuorum(s.members, {s.local}, task.before), task.tag, s.members, task.before)]
                else s'.answers == s.answers)
            && TaskOf(s', t) == if SeveralVoters(s.members.configs) then GotMembers(task.allow, task.before, s.members) else Idle
  {
    AloneIff(s.members.configs, s.local);
    SeveralIff(s.members.configs);
    assert s.members.configs == [] ==> VotersOf(s.members) == {};
  }

  /** The cached quorum is of this membership and less than `age` old at the reading `boot`. */
  ghost predicate Recent(s: State, members: Members, boot: nat, age: nat) {
    s.cache.Some? && s.cache.value.members == members && boot < s.cache.value.checkedBoot + age
  }

  /** A local voter of an agreed roster asks the others; those that respond count with it. */
  lemma TakeCacheLaw(s: State, t: nat, rosterAgrees: bool, responding: set<nat>)
    requires TaskOf(s, t).GotMembers? && s.cacheHolder.None?
    ensures var (s', task) := (Step(s, TakeCache(t, rosterAgrees, responding)), TaskOf(s, t));
            var voting := exists c :: c in task.members.configs && s.local in c;
            if task.allow && Recent(s, task.members, task.before, 5_000) then
              && s'.answers == s.answers + [Given(s, Cached(5_000), s.cache.value, s.tag, task.members, task.before)]
              && TaskOf(s', t).Idle? && s'.cacheHolder.None?
            else
              && s'.answers == s.answers
              && (TaskOf(s', t).Probed? <==> rosterAgrees && voting) && (TaskOf(s', t).Probed? || TaskOf(s', t).Idle?)
              && (s'.cacheHolder == Some(t) <==> TaskOf(s', t).Probed?)
              && (TaskOf(s', t).Probed? ==> TaskOf(s', t).allow == task.allow && TaskOf(s', t).members == task.members)
              && (TaskOf(s', t).Probed? ==>
                    forall v :: v in TaskOf(s', t).healthy <==>
                                v == s.local || (v in responding && exists c :: c in task.members.configs && v in c))
  {
    var task := TaskOf(s, t);
    forall v
      ensures v in VotersOf(task.members) <==> exists c :: c in task.members.configs && v in c
    {
      InSomeConfig(task.members.configs, v);
    }
  }

  lemma InSomeConfig(configs: seq<Config>, v: nat)
    ensures v in Voters(configs) <==> exists c :: c in configs && v in c
  {
    VotersIff(configs, v);
    forall c | c in configs && v in c
      ensures v in Voters(configs)
    {
      var i :| 0 <= i < |configs| && configs[i] == c;
    }
  }

  /**
   * After the second sample, with the membership unchanged: a fresh quorum if the healthy voters
   * outnumber the others in every configuration, else the cached one if it is recent enough.
   */
  lemma ConcludeLaw(s: State, t: nat)
    requires TaskOf(s, t).GotAfter?
    ensures var (s', task) := (Step(s, Conclude(t)), TaskOf(s, t));
            var q := VoterQuorum(task.members, task.healthy, task.after);
            && TaskOf(s', t).Idle?
            && if s.members == task.members && Outnumber(task.members.configs, task.healthy) then
                 s'.answers == s.answers + [Given(s, Fresh, q, task.tag, task.members, task.after)] && s'.cache == Some(q) && s'.tag == task.tag
               else
                 && s'.cache == s.cache && s'.tag == s.tag
                 && if s.members == task.members && task.allow && Recent(s, task.members, task.after, 10_000) then
                      s'.answers == s.answers + [Given(s, Cached(10_000), s.cache.value, s.tag, task.members, task.after)]
                    else s'.answers == s.answers
  {
    JointQuorumIff(TaskOf(s, t).members.configs, TaskOf(s, t).healthy);
  }
}
