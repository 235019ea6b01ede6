/** The compiled rules mean what the configuration says, and running the compiler again, completely
  * or after an interruption, changes nothing.
  */
module IptablesTheorems {
  import opened Ideal
  import opened Iptables

  // ---- Running again ----

  /** The command has had its effect. */
  predicate Effective(chains: Chains, command: Command) {
    command.chain in chains && (command.AppendUnique? ==> command.rule in chains[command.chain])
  }

  lemma EffectiveStays(chains: Chains, done: Command, next: Command)
    requires Effective(chains, done)
    ensures Effective(Apply(chains, next), done)
  {
  }

  lemma EffectiveIsNoOp(chains: Chains, command: Command)
    requires Effective(chains, command)
    ensures Apply(chains, command) == chains
  {
    if command.AppendUnique? {
      assert chains[command.chain := chains[command.chain]] == chains;
    }
  }

  /** Rules are only appended to chains that have been created. */
  ghost predicate Ordered(commands: seq<Command>) {
    forall j :: 0 <= j < |commands| && commands[j].AppendUnique? && commands[j].chain != Prerouting ==>
                  exists i :: 0 <= i < j && commands[i] == NewChain(commands[j].chain)
  }

  lemma {:induction false} AllEffective(chains: Chains, commands: seq<Command>, k: nat, j: nat)
    requires Ordered(commands) && Prerouting in chains && j < k <= |commands|
    ensures Effective(Run(chains, commands[..k]), commands[j])
    decreases k, 0
  {
    var before := Run(chains, commands[..k - 1]);
    assert commands[..k][..k - 1] == commands[..k - 1];
    if j < k - 1 {
      AllEffective(chains, commands, k - 1, j);
      EffectiveStays(before, commands[j], commands[k - 1]);
    } else {
      ChainExists(chains, commands, j);
    }
  }

  lemma {:induction false} KeepsPrerouting(chains: Chains, commands: seq<Command>)
    requires Prerouting in chains
    ensures Prerouting in Run(chains, commands)
  {
    if commands != [] {
      KeepsPrerouting(chains, commands[..|commands| - 1]);
    }
  }

  lemma {:induction false} ChainExists(chains: Chains, commands: seq<Command>, j: nat)
    requires Ordered(commands) && Prerouting in chains && j < |commands|
    ensures commands[j].AppendUnique? ==> commands[j].chain in Run(chains, commands[..j])
    decreases j, 1
  {
    if commands[j].AppendUnique? {
      if commands[j].chain == Prerouting {
        KeepsPrerouting(chains, commands[..j]);
      } else {
        var i :| 0 <= i < j && commands[i] == NewChain(commands[j].chain);
        AllEffective(chains, commands, j, i);
      }
    }
  }

  lemma {:induction false} NothingToDo(chains: Chains, commands: seq<Command>)
    requires forall j :: 0 <= j < |commands| ==> Effective(chains, commands[j])
    ensures Run(chains, commands) == chains
  {
    if commands != [] {
      NothingToDo(chains, commands[..|commands| - 1]);
      EffectiveIsNoOp(chains, commands[|commands| - 1]);
    }
  }

  lemma CommandsAreOrdered(entries: seq<Entry>)
    ensures Ordered(Commands(entries))
  {
    var commands := Commands(entries);
    assert commands[0] == NewChain(Inbound) && commands[1] == NewChain(Redirect);
    assert forall j :: 2 <= j < |commands| ==> commands[j].AppendUnique?;
  }

  /** Whatever the tables look like, and wherever a run was interrupted: running it again leads to the
      same tables as an uninterrupted run. */
  lemma InterruptedRunIsRepaired(chains: Chains, entries: seq<Entry>, k: nat)
    requires Prerouting in chains && k <= |Commands(entries)|
    ensures Run(Run(chains, Commands(entries)[..k]), Commands(entries)) == Run(chains, Commands(entries))
  {
    var commands := Commands(entries);
    CommandsAreOrdered(entries);
    var middle := Run(chains, commands[..k]);
    forall j | 0 <= j < k
      ensures Effective(middle, commands[..k][j])
    {
      AllEffective(chains, commands, k, j);
    }
    NothingToDo(middle, commands[..k]);
    RunAppend(middle, commands[..k], commands[k..]);
    RunAppend(chains, commands[..k], commands[k..]);
    assert commands == commands[..k] + commands[k..];
  }

  /** In particular, running twice is running once. */
  lemma SecondRunChangesNothing(chains: Chains, entries: seq<Entry>)
    requires Prerouting in chains
    ensures Run(Run(chains, Commands(entries)), Commands(entries)) == Run(chains, Commands(entries))
  {
    InterruptedRunIsRepaired(chains, entries, |Commands(entries)|);
    assert Commands(entries)[..|Commands(entries)|] == Commands(entries);
  }

  // ---- Meaning ----

  ghost predicate FirstFor(entries: seq<Entry>, i: int, port: nat) {
    0 <= i < |entries| && entries[i].listenPort == port && forall j :: 0 <= j < i ==> entries[j].listenPort != port
  }

  lemma LaterFirst(entries: seq<Entry>, i: int, port: nat)
    requires entries != [] && entries[0].listenPort != port
    ensures FirstFor(entries, i, port) <==> FirstFor(entries[1..], i - 1, port)
  {
    if FirstFor(entries[1..], i - 1, port) {
      forall j | 0 <= j < i
        ensures entries[j].listenPort != port
      {
        assert j > 0 ==> entries[j] == entries[1..][j - 1];
      }
    }
  }

  /** What is intended for a packet: traffic of the pod itself and established connections pass, and so does a port
      whose first entry disables TLS; other configured ports go to the proxy that does not ask for client
      certificates, and all the rest to the one that does. */
  lemma {:induction false} IntendedExactly(entries: seq<Entry>, p: Packet)
    ensures var passes := !p.tcp || p.loopback || p.established;
            && (passes ==> Intended(entries, p) == None)
            && (!passes && (forall i :: 0 <= i < |entries| ==> entries[i].listenPort != p.dport) ==>
                  Intended(entries, p) == Some(15006))
            && (forall i :: !passes && FirstFor(entries, i, p.dport) ==>
                  Intended(entries, p) == if entries[i].disableTLS then None else Some(15007))
  {
    if entries != [] && entries[0].listenPort != p.dport {
      IntendedExactly(entries[1..], p);
      forall i
        ensures FirstFor(entries, i, p.dport) <==> FirstFor(entries[1..], i - 1, p.dport)
      {
        LaterFirst(entries, i, p.dport);
      }
      forall i | FirstFor(entries, i, p.dport)
        ensures entries[i] == entries[1..][i - 1]
      {
      }
    }
  }

  const EMPTY: Chains := map[Prerouting := []]

  /** The tables with a given redirect chain. */
  function With(redirect: seq<Rule>): (r: Chains) {
    map[Prerouting := [TO_INBOUND], Inbound := [LOCAL_TRAFFIC, ESTABLISHED_TRAFFIC, TO_REDIRECT], Redirect := redirect]
  }

  function AppendedAll(rules: seq<Rule>, entries: seq<Entry>): (r: seq<Rule>) {
    if entries == [] then rules
    else Appended(AppendedAll(rules, entries[..|entries| - 1]), EntryRule(entries[|entries| - 1]))
  }

  lemma {:induction false} RunEntries(rules: seq<Rule>, entries: seq<Entry>)
    ensures Run(With(rules), EntryCommands(entries)) == With(AppendedAll(rules, entries))
  {
    if entries != [] {
      var n := |entries| - 1;
      RunEntries(rules, entries[..n]);
      assert EntryCommands(entries)[..n] == EntryCommands(entries[..n]);
    }
  }

  lemma PreparedAgain(redirect: seq<Rule>)
    ensures Prepared(With(redirect)) == With(redirect)
  {
  }

  lemma PreparationOfEmpty()
    ensures Run(EMPTY, PREPARATION) == With([])
  {
    PreparationIs(EMPTY);
    var c2 := Apply(Apply(EMPTY, NewChain(Inbound)), NewChain(Redirect));
    assert c2 == map[Prerouting := [], Inbound := [], Redirect := []];
    assert [] + [TO_INBOUND] == [TO_INBOUND] && [] + [LOCAL_TRAFFIC] == [LOCAL_TRAFFIC];
    assert [LOCAL_TRAFFIC] + [ESTABLISHED_TRAFFIC] == [LOCAL_TRAFFIC, ESTABLISHED_TRAFFIC];
    assert [LOCAL_TRAFFIC, ESTABLISHED_TRAFFIC] + [TO_REDIRECT] == [LOCAL_TRAFFIC, ESTABLISHED_TRAFFIC, TO_REDIRECT];
    var c4 := Apply(Apply(c2, AppendUnique(Prerouting, TO_INBOUND)), AppendUnique(Inbound, LOCAL_TRAFFIC));
    assert c4 == map[Prerouting := [TO_INBOUND], Inbound := [LOCAL_TRAFFIC], Redirect := []];
    assert Prepared(EMPTY) == With([]);
  }

  lemma RunCommands(chains: Chains, rules: seq<Rule>, entries: seq<Entry>)
    requires Run(chains, PREPARATION) == With(rules)
    ensures Run(chains, Commands(entries)) == With(Appended(AppendedAll(rules, entries), TO_PROXY))
  {
    var c := EntryCommands(entries);
    RunAppend(chains, PREPARATION, c);
    RunEntries(rules, entries);
    RunOneMore(chains, PREPARATION + c, AppendUnique(Redirect, TO_PROXY));
  }

  lemma FirstRun(entries: seq<Entry>)
    ensures Run(EMPTY, Commands(entries)) == With(Appended(AppendedAll([], entries), TO_PROXY))
  {
    PreparationOfEmpty();
    RunCommands(EMPTY, [], entries);
  }

  /** The first rule a packet matches. */
  function FirstMatch(rules: seq<Rule>, p: Packet): (r: Option<Rule>) {
    if rules == [] then None else if Matches(rules[0], p) then Some(rules[0]) else FirstMatch(rules[1..], p)
  }

  lemma {:induction false} FirstMatchAppend(rules: seq<Rule>, r: Rule, p: Packet)
    ensures FirstMatch(rules + [r], p)
         == if FirstMatch(rules, p).Some? then FirstMatch(rules, p) else if Matches(r, p) then Some(r) else None
  {
    if rules == [] {
      assert rules + [r] == [r];
    } else {
      FirstMatchAppend(rules[1..], r, p);
      assert (rules + [r])[1..] == rules[1..] + [r];
    }
  }

  lemma {:induction false} NoMatch(rules: seq<Rule>, r: Rule, p: Packet)
    requires FirstMatch(rules, p).None? && r in rules
    ensures !Matches(r, p)
  {
    if rules[0] != r {
      NoMatch(rules[1..], r, p);
    }
  }

  /** Leaving out a rule that is there already makes no difference. */
  lemma FirstMatchAppended(rules: seq<Rule>, r: Rule, p: Packet)
    ensures FirstMatch(Appended(rules, r), p)
         == if FirstMatch(rules, p).Some? then FirstMatch(rules, p) else if Matches(r, p) then Some(r) else None
  {
    if r in rules {
      if FirstMatch(rules, p).None? {
        NoMatch(rules, r, p);
      }
    } else {
      FirstMatchAppend(rules, r, p);
    }
  }

  function FirstEntry(entries: seq<Entry>, port: nat): (r: Option<Entry>) {
    if entries == [] then None
    else if entries[0].listenPort == port then Some(entries[0])
    else FirstEntry(entries[1..], port)
  }

  lemma {:induction false} FirstEntryAppend(entries: seq<Entry>, e: Entry, port: nat)
    ensures FirstEntry(entries + [e], port)
         == if FirstEntry(entries, port).Some? then FirstEntry(entries, port)
            else if e.listenPort == port then Some(e) else None
  {
    if entries == [] {
      assert entries + [e] == [e];
    } else {
      FirstEntryAppend(entries[1..], e, port);
      assert (entries + [e])[1..] == entries[1..] + [e];
    }
  }

  /** The first matching rule is the one of the first entry for the port. */
  lemma {:induction false} EntriesMatch(entries: seq<Entry>, p: Packet)
    requires p.tcp
    ensures FirstMatch(AppendedAll([], entries), p)
         == match FirstEntry(entries, p.dport) case None => None case Some(e) => Some(EntryRule(e))
  {
    if entries != [] {
      var front, e := entries[..|entries| - 1], entries[|entries| - 1];
      EntriesMatch(front, p);
      FirstMatchAppended(AppendedAll([], front), EntryRule(e), p);
      FirstEntryAppend(front, e, p.dport);
      assert entries == front + [e];
    }
  }

  lemma {:induction false} IntendedIs(entries: seq<Entry>, port: nat)
    ensures IntendedForPort(entries, port)
         == match FirstEntry(entries, port)
            case None => Some(ENVOY_INGRESS_PORT)
            case Some(e) => if e.disableTLS then None else Some(ENVOY_INGRESS_PORT_NO_CLIENT_CERT)
  {
    if entries != [] {
      IntendedIs(entries[1..], port);
    }
  }

  predicate NoJumps(rules: seq<Rule>) {
    forall i :: 0 <= i < |rules| ==> !rules[i].target.Jump?
  }

  lemma WithDescends(redirect: seq<Rule>)
    requires NoJumps(redirect)
    ensures Descending(With(redirect))
  {
  }

  lemma {:induction false} WalkRedirect(redirect: seq<Rule>, i: nat, p: Packet)
    requires NoJumps(redirect) && Descending(With(redirect)) && i <= |redirect|
    ensures Walk(With(redirect), Redirect, i, p)
         == match FirstMatch(redirect[i..], p)
            case None => None
            case Some(r) => if r.target.TProxy? then Some(r.target.port) else None
    decreases |redirect| - i
  {
    if i < |redirect| {
      assert redirect[i..][1..] == redirect[i + 1..];
      WalkRedirect(redirect, i + 1, p);
    }
  }

  /** Local and established traffic is exempt, the redirect chain decides the rest. */
  lemma DecisionWith(redirect: seq<Rule>, p: Packet)
    requires NoJumps(redirect)
    ensures Descending(With(redirect))
    ensures Decision(With(redirect), p)
         == if !p.tcp || p.loopback || p.established then None
            else match FirstMatch(redirect, p)
                 case None => None
                 case Some(r) => if r.target.TProxy? then Some(r.target.port) else None
  {
    WithDescends(redirect);
    assert redirect[0..] == redirect;
    WalkRedirect(redirect, 0, p);
    if p.tcp {
      WalkInbound(redirect, p);
    }
    WalkPrerouting(redirect, p);
  }

  lemma WalkInbound(redirect: seq<Rule>, p: Packet)
    requires Descending(With(redirect)) && p.tcp
    ensures Walk(With(redirect), Inbound, 0, p)
         == if p.loopback || p.established then None else Walk(With(redirect), Redirect, 0, p)
  {
    var chains := With(redirect);
    assert chains[Inbound] == [LOCAL_TRAFFIC, ESTABLISHED_TRAFFIC, TO_REDIRECT];
    assert Walk(chains, Inbound, 3, p) == None;
    assert Walk(chains, Inbound, 2, p) == Walk(chains, Redirect, 0, p);
    assert Walk(chains, Inbound, 1, p) == if p.established then None else Walk(chains, Inbound, 2, p);
    assert Walk(chains, Inbound, 0, p) == if p.loopback then None else Walk(chains, Inbound, 1, p);
  }

  lemma WalkPrerouting(redirect: seq<Rule>, p: Packet)
    requires Descending(With(redirect))
    ensures Decision(With(redirect), p) == if p.tcp then Walk(With(redirect), Inbound, 0, p) else None
  {
    var chains := With(redirect);
    assert chains[Prerouting] == [TO_INBOUND];
    assert Walk(chains, Prerouting, 1, p) == None;
    assert Walk(chains, Prerouting, 0, p)
        == if p.tcp then Walk(chains, Inbound, 0, p) else Walk(chains, Prerouting, 1, p);
  }

  lemma {:induction false} EntriesHaveNoJumps(rules: seq<Rule>, entries: seq<Entry>)
    requires NoJumps(rules)
    ensures NoJumps(AppendedAll(rules, entries))
  {
    if entries != [] {
      EntriesHaveNoJumps(rules, entries[..|entries| - 1]);
    }
  }

  /** From empty tables, every packet is treated as the configuration says. */
  lemma RulesMeanConfiguration(entries: seq<Entry>, p: Packet)
    ensures var chains := Run(EMPTY, Commands(entries));
            Descending(chains) && Prerouting in chains && Decision(chains, p) == Intended(entries, p)
  {
    FirstRun(entries);
    EntriesHaveNoJumps([], entries);
    var rules := AppendedAll([], entries);
    DecisionWith(Appended(rules, TO_PROXY), p);
    if p.tcp {
      FirstMatchAppended(rules, TO_PROXY, p);
      EntriesMatch(entries, p);
      IntendedIs(entries, p.dport);
    }
  }

  lemma {:induction false} DecidedStays(rules: seq<Rule>, entries: seq<Entry>, p: Packet)
    requires FirstMatch(rules, p).Some?
    ensures FirstMatch(AppendedAll(rules, entries), p) == FirstMatch(rules, p)
  {
    if entries != [] {
      var front := entries[..|entries| - 1];
      DecidedStays(rules, front, p);
      FirstMatchAppended(AppendedAll(rules, front), EntryRule(entries[|entries| - 1]), p);
    }
  }

  /** A later configuration comes too late: the chains are not cleared, and new rules end up behind
      the one that catches everything. */
  lemma FirstConfigurationWins(first: seq<Entry>, later: seq<Entry>, p: Packet)
    ensures var chains := Run(Run(EMPTY, Commands(first)), Commands(later));
            Descending(chains) && Prerouting in chains && Decision(chains, p) == Intended(first, p)
  {
    LaterRun(first, later);
    var rules := Appended(AppendedAll([], first), TO_PROXY);
    EntriesHaveNoJumps([], first);
    EntriesHaveNoJumps(rules, later);
    RulesMeanConfiguration(first, p);
    FirstRun(first);
    DecisionWith(rules, p);
    DecisionWith(Appended(AppendedAll(rules, later), TO_PROXY), p);
    if p.tcp && !p.loopback && !p.established {
      SameFirstMatch(first, later, p);
    }
  }

  lemma LaterRun(first: seq<Entry>, later: seq<Entry>)
    ensures var rules := Appended(AppendedAll([], first), TO_PROXY);
            Run(Run(EMPTY, Commands(first)), Commands(later)) == With(Appended(AppendedAll(rules, later), TO_PROXY))
  {
    FirstRun(first);
    var rules := Appended(AppendedAll([], first), TO_PROXY);
    PreparationIs(With(rules));
    PreparedAgain(rules);
    RunCommands(With(rules), rules, later);
  }

  lemma SameFirstMatch(first: seq<Entry>, later: seq<Entry>, p: Packet)
    requires p.tcp
    ensures var rules := Appended(AppendedAll([], first), TO_PROXY);
            FirstMatch(Appended(AppendedAll(rules, later), TO_PROXY), p) == FirstMatch(rules, p)
  {
    var rules := Appended(AppendedAll([], first), TO_PROXY);
    FirstMatchAppended(AppendedAll([], first), TO_PROXY, p);
    DecidedStays(rules, later, p);
    FirstMatchAppended(AppendedAll(rules, later), TO_PROXY, p);
  }

  // ---- While the rules are being set up ----

  ghost predicate NoProxy(chains: Chains) {
    forall c, i :: c in chains && 0 <= i < |chains[c]| ==> !chains[c][i].target.TProxy?
  }

  lemma {:induction false} NothingProxied(chains: Chains, c: Chain, i: nat, p: Packet)
    requires Descending(chains) && NoProxy(chains) && c in chains && i <= |chains[c]|
    ensures Walk(chains, c, i, p) == None
    decreases Level(c), |chains[c]| - i
  {
    if i < |chains[c]| {
      NothingProxied(chains, c, i + 1, p);
      if chains[c][i].target.Jump? {
        NothingProxied(chains, chains[c][i].target.to, 0, p);
      }
    }
  }

  /** Chains are created before rules jump to them. */
  lemma {:induction false} EarlyRun(k: nat)
    requires k <= |PREPARATION|
    ensures var chains := Run(EMPTY, PREPARATION[..k]);
            && Prerouting in chains && (k >= 1 ==> Inbound in chains) && (k >= 2 ==> Redirect in chains)
            && Descending(chains) && NoProxy(chains)
  {
    if k > 0 {
      EarlyRun(k - 1);
      assert PREPARATION[..k][..k - 1] == PREPARATION[..k - 1];
    }
  }

  /** At every point of the setup, a packet is treated as intended, or it is not redirected yet: then it goes
      past the proxy. It is never sent to the wrong proxy port. */
  lemma PartialRulesNeverMisdirect(entries: seq<Entry>, k: nat, p: Packet)
    requires k <= |Commands(entries)|
    ensures var chains := Run(EMPTY, Commands(entries)[..k]);
            && Descending(chains) && Prerouting in chains
            && (Decision(chains, p) == Intended(entries, p) || Decision(chains, p) == None)
  {
    var n := |PREPARATION|;
    if k <= n {
      EarlyRun(k);
      assert Commands(entries)[..k] == PREPARATION[..k];
      NothingProxied(Run(EMPTY, PREPARATION[..k]), Prerouting, 0, p);
    } else if k == |Commands(entries)| {
      assert Commands(entries)[..k] == Commands(entries);
      RulesMeanConfiguration(entries, p);
    } else {
      assert k == n + (k - n);
      PartialEntriesNeverMisdirect(entries, k - n, p);
    }
  }

  lemma PartialEntriesNeverMisdirect(entries: seq<Entry>, k: nat, p: Packet)
    requires k <= |entries|
    ensures var chains := Run(EMPTY, Commands(entries)[..|PREPARATION| + k]);
            && Descending(chains) && Prerouting in chains
            && (Decision(chains, p) == Intended(entries, p) || Decision(chains, p) == None)
  {
    PartialRun(entries, k);
    EntriesHaveNoJumps([], entries[..k]);
    DecisionWith(AppendedAll([], entries[..k]), p);
    if p.tcp {
      EntriesMatch(entries[..k], p);
      IntendedIs(entries, p.dport);
      if FirstEntry(entries[..k], p.dport).Some? {
        EarlierEntry(entries, k, p.dport);
      }
    }
  }

  lemma PartialRun(entries: seq<Entry>, k: nat)
    requires k <= |entries|
    ensures Run(EMPTY, Commands(entries)[..|PREPARATION| + k]) == With(AppendedAll([], entries[..k]))
  {
    var c := EntryCommands(entries[..k]);
    assert Commands(entries)[..|PREPARATION| + k] == PREPARATION + c;
    PreparationOfEmpty();
    RunAppend(EMPTY, PREPARATION, c);
    RunEntries([], entries[..k]);
  }

  lemma {:induction false} EarlierEntry(entries: seq<Entry>, k: nat, port: nat)
    requires k <= |entries| && FirstEntry(entries[..k], port).Some?
    ensures FirstEntry(entries, port) == FirstEntry(entries[..k], port)
  {
    if entries[0].listenPort != port {
      assert entries[..k][1..] == entries[1..][..k - 1];
      EarlierEntry(entries[1..], k - 1, port);
    }
  }
}
