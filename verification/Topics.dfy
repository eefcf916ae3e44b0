/** The bus topics of an adapter, for an entity name that is already normalized. */
module Topics {
  import opened EventBus

  function StateTopic(domain: string, entity: string): string {
    domain + "/" + entity + "/state"
  }

  function BatteryTopic(domain: string, entity: string): string {
    domain + "/" + entity + "_battery/state"
  }

  function CommandTopic(domain: string, entity: string): string {
    domain + "/" + entity + "/command"
  }

  function HealthTopic(entity: string): string {
    "system/health/" + entity
  }

  /** The two state topics of a device are never the same topic. */
  lemma TopicsDiffer(domain: string, entity: string)
    ensures StateTopic(domain, entity) != BatteryTopic(domain, entity)
  {
    assert |StateTopic(domain, entity)| < |BatteryTopic(domain, entity)|;
  }

  lemma SlashesAgree(a: string, b: string, c: string, d: string, e: string, f: string)
    requires a + "/" + b + "/" + c == d + "/" + e + "/" + f
    requires '/' !in d && '/' !in e && '/' !in f
    ensures a == d && b == e && c == f
  {
    var s, t := a + "/" + b + "/" + c, d + "/" + e + "/" + f;
    assert t[|a|] == s[|a|] == '/';
    assert t[|a| + 1 + |b|] == s[|a| + 1 + |b|] == '/';
    assert a == s[..|a|] && b == s[|a| + 1..|a| + 1 + |b|] && c == s[|a| + 2 + |b|..];
    assert d == t[..|d|] && e == t[|d| + 1..|d| + 1 + |e|] && f == t[|d| + 2 + |e|..];
  }

  /** Three parts joined by slashes are a valid topic if and only if each is a segment. */
  lemma JoinedIsValidExactly(a: string, b: string, c: string)
    ensures ValidTopic(a + "/" + b + "/" + c) <==> Segment(a) && Segment(b) && Segment(c)
  {
    var t := a + "/" + b + "/" + c;
    ValidTopicExactly(t);
    forall d: string, e: string, f: string
      | Segment(d) && Segment(e) && Segment(f) && t == d + "/" + e + "/" + f
      ensures Segment(a) && Segment(b) && Segment(c)
    {
      SlashesAgree(a, b, c, d, e, f);
    }
  }

  lemma CommandTopicIsValid(domain: string, entity: string)
    ensures ValidTopic(CommandTopic(domain, entity)) <==> Segment(domain) && Segment(entity)
  {
    JoinedIsValidExactly(domain, entity, "command");
    assert CommandTopic(domain, entity) == domain + "/" + entity + "/" + "command";
  }

  lemma StateTopicIsValid(domain: string, entity: string)
    ensures ValidTopic(StateTopic(domain, entity)) <==> Segment(domain) && Segment(entity)
  {
    JoinedIsValidExactly(domain, entity, "state");
    assert StateTopic(domain, entity) == domain + "/" + entity + "/" + "state";
  }

  lemma BatteryTopicIsValid(domain: string, entity: string)
    ensures ValidTopic(BatteryTopic(domain, entity)) <==> Segment(domain) && '/' !in entity
  {
    var e := entity + "_battery";
    JoinedIsValidExactly(domain, e, "state");
    assert BatteryTopic(domain, entity) == domain + "/" + e + "/" + "state";
    assert forall c :: c in e <==> c in entity || c in "_battery";
  }

  lemma HealthTopicIsValid(entity: string)
    ensures ValidTopic(HealthTopic(entity)) <==> Segment(entity)
  {
    JoinedIsValidExactly("system", "health", entity);
    assert HealthTopic(entity) == "system" + "/" + "health" + "/" + entity;
  }

  /**
   start first subscribes to the command topic.  That succeeds if and only if every topic the adapter
   publishes on is valid, so once started, publishing never raises.
   */
  lemma CommandTopicDecides(domain: string, entity: string)
    ensures ValidTopic(CommandTopic(domain, entity)) <==>
              && ValidTopic(StateTopic(domain, entity))
              && ValidTopic(BatteryTopic(domain, entity))
              && ValidTopic(HealthTopic(entity))
  {
    CommandTopicIsValid(domain, entity);
    StateTopicIsValid(domain, entity);
    BatteryTopicIsValid(domain, entity);
    HealthTopicIsValid(entity);
  }

  /** The topics of one device, spelled out. */
  lemma TopicsOfOneDevice()
    ensures StateTopic("e", "p") == "e/p/state"
    ensures BatteryTopic("e", "p") == "e/p_battery/state"
    ensures CommandTopic("e", "p") == "e/p/command"
    ensures HealthTopic("p") == "system/health/p"
  {
    assert "e" + "/" + "p" == "e/p";
    assert "e/p" + "/state" == "e/p/state";
    assert "e/p" + "_battery/state" == "e/p_battery/state";
    assert "e/p" + "/command" == "e/p/command";
    assert "system/health/" + "p" == "system/health/p";
  }
}
