/** Ingress configuration compiled to packet filter rules, and what the rules do to packets. */
module Iptables {
  import opened Ideal

  const ENVOY_INGRESS_PORT: nat := 15006
  const ENVOY_INGRESS_PORT_NO_CLIENT_CERT: nat := 15007

  // ---- Rules and packets ----

  /** The chains of the mangle table that matter. */
  datatype Chain = Prerouting | Inbound | Redirect

  datatype Target = Jump(to: Chain) | Return | TProxy(port: nat)

  /** All rules match TCP packets only. */
  datatype Rule = Rule(dport: Option<nat>, loopback: bool, established: bool, target: Target)

  datatype Packet = Packet(tcp: bool, dport: nat, loopback: bool, established: bool)

  type Chains = map<Chain, seq<Rule>>

  predicate Matches(r: Rule, p: Packet) {
    && p.tcp
    && (r.dport.None? || r.dport.value == p.dport)
    && (r.loopback ==> p.loopback)
    && (r.established ==> p.established)
  }

  function Level(c: Chain): (r: nat) {
    match c
    case Prerouting => 2
    case Inbound => 1
    case Redirect => 0
  }

  /** Chains only jump downwards, to chains that exist. */
  ghost predicate Descending(chains: Chains) {
    forall c, i :: c in chains && 0 <= i < |chains[c]| && chains[c][i].target.Jump? ==>
                     chains[c][i].target.to in chains && Level(chains[c][i].target.to) < Level(c)
  }

  /** The rules of a chain from the i-th on: the proxy port a packet is sent to, or nothing if the
      packet falls out of the chain. */
  ghost function Walk(chains: Chains, c: Chain, i: nat, p: Packet): (r: Option<nat>)
    requires Descending(chains) && c in chains && i <= |chains[c]|
    decreases Level(c), |chains[c]| - i
  {
    if i == |chains[c]| then None
    else if !Matches(chains[c][i], p) then Walk(chains, c, i + 1, p)
    else
      match chains[c][i].target
      case Return => None
      case TProxy(port) => Some(port)
      case Jump(to) =>
        var inner := Walk(chains, to, 0, p);
        if inner.Some? then inner else Walk(chains, c, i + 1, p)
  }

  /** Where a packet goes: to a port of the proxy, or on to its destination. */
  ghost function Decision(chains: Chains, p: Packet): (r: Option<nat>)
    requires Descending(chains) && Prerouting in chains
  {
    Walk(chains, Prerouting, 0, p)
  }

  // ---- Configuration ----

  datatype Entry = Entry(listenPort: nat, disableTLS: bool)

  /** What a configuration means for a packet. */
  function Intended(entries: seq<Entry>, p: Packet): (r: Option<nat>) {
    if !p.tcp || p.loopback || p.established then None
    else IntendedForPort(entries, p.dport)
  }

  /** The first entry for the port decides. */
  function IntendedForPort(entries: seq<Entry>, port: nat): (r: Option<nat>) {
    if entries == [] then Some(ENVOY_INGRESS_PORT)
    else if entries[0].listenPort == port then
      (if entries[0].disableTLS then None else Some(ENVOY_INGRESS_PORT_NO_CLIENT_CERT))
    else IntendedForPort(entries[1..], port)
  }

  // ---- Commands ----

  datatype Command = NewChain(chain: Chain) | AppendUnique(chain: Chain, rule: Rule)

  function Appended(rules: seq<Rule>, r: Rule): (result: seq<Rule>) {
    if r in rules then rules else rules + [r]
  }

  /** A chain that exists is left alone, and so is a chain that has the rule already. */
  function Apply(chains: Chains, command: Command): (r: Chains) {
    match command
    case NewChain(c) => if c in chains then chains else chains[c := []]
    case AppendUnique(c, r) => if c in chains then chains[c := Appended(chains[c], r)] else chains
  }

  function Run(chains: Chains, commands: seq<Command>): (r: Chains) {
    if commands == [] then chains
    else Apply(Run(chains, commands[..|commands| - 1]), commands[|commands| - 1])
  }

  const TO_INBOUND := Rule(None, false, false, Jump(Inbound))
  const LOCAL_TRAFFIC := Rule(None, true, false, Return)
  const ESTABLISHED_TRAFFIC := Rule(None, false, true, Return)
  const TO_REDIRECT := Rule(None, false, false, Jump(Redirect))
  const TO_PROXY := Rule(None, false, false, TProxy(ENVOY_INGRESS_PORT))

  function EntryRule(e: Entry): (r: Rule) {
    Rule(Some(e.listenPort), false, false, if e.disableTLS then Return else TProxy(ENVOY_INGRESS_PORT_NO_CLIENT_CERT))
  }

  const PREPARATION: seq<Command> := [
    NewChain(Inbound),
    NewChain(Redirect),
    AppendUnique(Prerouting, TO_INBOUND),
    AppendUnique(Inbound, LOCAL_TRAFFIC),
    AppendUnique(Inbound, ESTABLISHED_TRAFFIC),
    AppendUnique(Inbound, TO_REDIRECT)]

  function EntryCommands(entries: seq<Entry>): (commands: seq<Command>)
    ensures |commands| == |entries|
  {
    seq(|entries|, i requires 0 <= i < |entries| => AppendUnique(Redirect, EntryRule(entries[i])))
  }

  function Commands(entries: seq<Entry>): (r: seq<Command>) {
    PREPARATION + EntryCommands(entries) + [AppendUnique(Redirect, TO_PROXY)]
  }

  class IPTables {
    var chains: Chains

    constructor ()
      ensures chains == map[Prerouting := []]
    {
      chains := map[Prerouting := []];
    }

    method CreateChain(c: Chain) returns (ok: bool)
      modifies this
      ensures chains == Apply(old(chains), NewChain(c))
      ensures ok <==> c !in old(chains)
    {
      if c in chains {
        return false;
      }
      chains := chains[c := []];
      return true;
    }

    method AppendIfMissing(c: Chain, r: Rule) returns (ok: bool)
      modifies this
      ensures chains == Apply(old(chains), AppendUnique(c, r))
      ensures ok <==> c in old(chains)
    {
      if c !in chains {
        return false;
      }
      if r in chains[c] {
        assert chains[c := chains[c]] == chains;
        return true;
      }
      chains := chains[c := chains[c] + [r]];
      return true;
    }

    method IngressIPTableRules(entries: seq<Entry>) returns (ok: bool)
      requires Prerouting in chains
      modifies this
      ensures ok
      ensures chains == Run(old(chains), Commands(entries))
    {
      ghost var before := chains;
      // An error of these two means that the chain exists.
      var created := CreateChain(Inbound);
      created := CreateChain(Redirect);
      ok := AppendIfMissing(Prerouting, TO_INBOUND);
      ok := AppendIfMissing(Inbound, LOCAL_TRAFFIC);
      ok := AppendIfMissing(Inbound, ESTABLISHED_TRAFFIC);
      ok := AppendIfMissing(Inbound, TO_REDIRECT);
      PreparationIs(before);
      AppendEntries(before, entries);
      ok := AppendIfMissing(Redirect, TO_PROXY);
      RunOneMore(before, PREPARATION + EntryCommands(entries), AppendUnique(Redirect, TO_PROXY));
    }

    /** The loop of IngressIPTableRules. */
    method AppendEntries(ghost before: Chains, entries: seq<Entry>)
      requires Redirect in chains && chains == Run(before, PREPARATION + [])
      modifies this
      ensures Redirect in chains && chains == Run(before, PREPARATION + EntryCommands(entries))
    {
      ghost var commands := EntryCommands(entries);
      for i := 0 to |entries|
        invariant Redirect in chains
        invariant chains == Run(before, PREPARATION + commands[..i])
      {
        var ok;
        if entries[i].disableTLS {
          ok := AppendIfMissing(Redirect, Rule(Some(entries[i].listenPort), false, false, Return));
        } else {
          var toProxy := TProxy(ENVOY_INGRESS_PORT_NO_CLIENT_CERT);
          ok := AppendIfMissing(Redirect, Rule(Some(entries[i].listenPort), false, false, toProxy));
        }
        RunOneMore(before, PREPARATION + commands[..i], commands[i]);
        assert PREPARATION + commands[..i] + [commands[i]] == PREPARATION + commands[..i + 1];
      }
      assert commands[..|entries|] == commands;
    }
  }

  lemma RunOneMore(chains: Chains, commands: seq<Command>, command: Command)
    ensures Run(chains, commands + [command]) == Apply(Run(chains, commands), command)
  {
    assert (commands + [command])[..|commands|] == commands;
  }

  lemma {:induction false} RunAppend(chains: Chains, a: seq<Command>, b: seq<Command>)
    ensures Run(chains, a + b) == Run(Run(chains, a), b)
  {
    if b == [] {
      assert a + b == a;
    } else {
      RunAppend(chains, a, b[..|b| - 1]);
      RunOneMore(chains, a + b[..|b| - 1], b[|b| - 1]);
      assert a + b == a + b[..|b| - 1] + [b[|b| - 1]];
    }
  }

  /** The six commands, one by one. */
  function Prepared(chains: Chains): (r: Chains) {
    var c2 := Apply(Apply(chains, NewChain(Inbound)), NewChain(Redirect));
    var c4 := Apply(Apply(c2, AppendUnique(Prerouting, TO_INBOUND)), AppendUnique(Inbound, LOCAL_TRAFFIC));
    Apply(Apply(c4, AppendUnique(Inbound, ESTABLISHED_TRAFFIC)), AppendUnique(Inbound, TO_REDIRECT))
  }

  lemma PreparationIs(chains: Chains)
    ensures Run(chains, PREPARATION) == Prepared(chains)
    ensures Run(chains, PREPARATION + []) == Prepared(chains)
  {
    var p := PREPARATION;
    assert p + [] == p;
    assert Run(chains, []) == chains;
    forall i | 0 <= i < 6
      ensures Run(chains, p[..i + 1]) == Apply(Run(chains, p[..i]), p[i])
    {
      RunOneMore(chains, p[..i], p[i]);
      assert p[..i + 1] == p[..i] + [p[i]];
    }
    assert p[..0] == [] && p[..6] == p;
    assert Run(chains, p[..1]) == Apply(chains, p[0]);
    assert Run(chains, p[..2]) == Apply(Run(chains, p[..1]), p[1]);
    assert Run(chains, p[..3]) == Apply(Run(chains, p[..2]), p[2]);
    assert Run(chains, p[..4]) == Apply(Run(chains, p[..3]), p[3]);
    assert Run(chains, p[..5]) == Apply(Run(chains, p[..4]), p[4]);
    assert Run(chains, p[..6]) == Apply(Run(chains, p[..5]), p[5]);
  }
}
