/**
 * DockerService's reconciliation pass: it applies one scan of labelled containers to the proxy's
 * server table (registerContainer, ensureTryIncludes), removes the servers it registered earlier
 * whose containers are gone (unregisterMissing, unregisterServer), and remembers what it did for
 * the next pass (registeredNames, lastRegistrations, lastMatchedCount).
 */
module Reconciler {
  import opened Wrappers
  import opened JavaStrings
  import opened Containers
  import opened Proxy
  import opened Naming

  /** RegistrationStatus. */
  datatype Status = Registered | Updated | Unchanged

  /** What registerContainer ends in: a RegistrationOutcome, null when the proxy refuses the
      registration (recorded here with the name it was tried under), or the exception
      InetSocketAddress throws for a port outside 0..65535, which no try block in the pass
      catches. */
  datatype Outcome = Applied(registration: Registration, status: Status) | Failed(serverName: string) | InvalidPort

  /** The server name an outcome other than InvalidPort was recorded under. */
  function NameOf(o: Outcome): string
    requires !o.InvalidPort?
  {
    if o.Applied? then o.registration.serverName else o.serverName
  }

  /** What a pass works from besides the table: the scan sorted by id, the base name of each
      container, the configuration and strategy, the two indexes of the previous registrations,
      and the name/address pairs the proxy refuses. */
  datatype Pass = Pass(sorted: seq<Container>, bases: seq<string>, cfg: Config, strategy: DuplicateStrategy,
                       previousByName: map<string, Registration>, previousByContainer: map<string, Registration>,
                       refused: set<(string, Address)>)

  /** The local state of a pass in refreshContainers: the names applied so far, the applied
      registrations by name, and the three counters. */
  datatype Tally = Tally(seen: set<string>, newRegistrations: map<string, Registration>,
                         registered: nat, updated: nat, unchangedCount: nat)

  /** The counts the pass reports in its summary line. */
  datatype Summary = Summary(matched: nat, registered: nat, updated: nat, unchangedCount: nat, unregistered: nat)

  /** A pass either completes or is cut short by an exception that escapes refreshContainers. */
  datatype RefreshResult = Completed(summary: Summary) | Interrupted

  /** The registrations of the applied outcomes, in pass order. */
  function AppliedRegs(outs: seq<Outcome>): (rs: seq<Registration>)
    ensures |rs| <= |outs|
  {
    if outs == [] then []
    else
      var last := outs[|outs| - 1];
      AppliedRegs(outs[..|outs| - 1]) + (if last.Applied? then [last.registration] else [])
  }

  /** How many outcomes have the status. */
  function CountStatus(outs: seq<Outcome>, st: Status): (n: nat)
    ensures n <= |outs|
  {
    if outs == [] then 0
    else
      var last := outs[|outs| - 1];
      CountStatus(outs[..|outs| - 1], st) + (if last.Applied? && last.status == st then 1 else 0)
  }

  /** Every applied outcome is counted under exactly one status. */
  lemma {:induction false} AppliedCount(outs: seq<Outcome>)
    ensures |AppliedRegs(outs)| == CountStatus(outs, Registered) + CountStatus(outs, Updated) + CountStatus(outs, Unchanged)
  {
    if outs != [] {
      AppliedCount(outs[..|outs| - 1]);
    }
  }

  /** newRegistrations after putting the applied registrations in pass order: keyed by server
      name, a later registration replacing an earlier one of the same name. */
  function RegsMap(rs: seq<Registration>): (m: map<string, Registration>)
    ensures m.Keys == NamesOf(rs)
    ensures forall k | k in m :: m[k].serverName == k && m[k] in rs
  {
    if rs == [] then map[]
    else
      var init, last := rs[..|rs| - 1], rs[|rs| - 1];
      assert rs == init + [last];
      RegsMap(init)[last.serverName := last]
  }

  /** Appending one outcome extends the applied registrations and the counts by that outcome. */
  lemma OutcomesSnoc(outs: seq<Outcome>, o: Outcome)
    ensures o.Applied? ==> AppliedRegs(outs + [o]) == AppliedRegs(outs) + [o.registration]
    ensures !o.Applied? ==> AppliedRegs(outs + [o]) == AppliedRegs(outs)
  {
    assert (outs + [o])[..|outs|] == outs;
    assert AppliedRegs(outs) + [] == AppliedRegs(outs);
  }

  /** One more outcome adds one to the count of its status, if it has one. */
  lemma CountSnoc(outs: seq<Outcome>, o: Outcome, st: Status)
    ensures CountStatus(outs + [o], st) == CountStatus(outs, st) + (if o.Applied? && o.status == st then 1 else 0)
  {
    assert (outs + [o])[..|outs|] == outs;
  }

  /** Updating a map at a key adds that key. */
  lemma KeysUpdate<K, V>(m: map<K, V>, k: K, v: V)
    ensures m[k := v].Keys == m.Keys + {k}
  {
  }

  /** Putting one more registration updates the map at its name. */
  lemma RegsMapSnoc(rs: seq<Registration>, r: Registration)
    ensures RegsMap(rs + [r]) == RegsMap(rs)[r.serverName := r]
  {
    assert (rs + [r])[..|rs|] == rs;
  }

  /** With distinct names nothing is replaced: the map holds every registration, one per name. */
  lemma {:induction false} RegsMapDistinct(rs: seq<Registration>)
    requires DistinctNames(rs)
    ensures forall r | r in rs :: RegsMap(rs)[r.serverName] == r
  {
    if rs != [] {
      var init, last := rs[..|rs| - 1], rs[|rs| - 1];
      assert rs == init + [last];
      RegsMapDistinct(init);
      forall r | r in init
        ensures r.serverName != last.serverName
      {
        var i :| 0 <= i < |init| && init[i] == r;
        assert rs[i] == r;
      }
    }
  }

  /** A list that holds each entry of a map keyed by server name once: HashMap.values() in an
      unspecified order. */
  ghost predicate Listing(s: seq<Registration>, m: map<string, Registration>) {
    && DistinctNames(s)
    && NamesOf(s) == m.Keys
    && forall r | r in s :: r.serverName in m && m[r.serverName] == r
  }

  /** A list of registrations with distinct names is as long as its set of names. */
  lemma {:induction false} DistinctNamesSize(s: seq<Registration>)
    requires DistinctNames(s)
    ensures |NamesOf(s)| == |s|
  {
    if s != [] {
      var init, last := s[..|s| - 1], s[|s| - 1];
      assert s == init + [last];
      assert forall i :: 0 <= i < |init| ==> init[i] == s[i];
      DistinctNamesSize(init);
      NamesOfSnoc(init, last);
      forall r | r in init
        ensures r.serverName != last.serverName
      {
        var i :| 0 <= i < |init| && init[i] == r;
        assert s[i] == r;
      }
    }
  }

  /** The connection order after ensureTryIncludes: unchanged when it already has the name or
      cannot be changed, else the name appended. */
  function WithTry(order: seq<string>, name: string, mutable: bool): (r: seq<string>)
    ensures name in r <==> name in order || mutable
    ensures order <= r
    ensures name in order || !mutable ==> r == order
    ensures r != order ==> r == order + [name]
    ensures NoDuplicates(order) ==> NoDuplicates(r)
  {
    if name in order || !mutable then order else order + [name]
  }

  predicate NoDuplicates(s: seq<string>) {
    forall i, j :: 0 <= i < j < |s| ==> s[i] != s[j]
  }

  /** The address a container is registered at. */
  function Desired(c: Container, cfg: Config): Address {
    Address(ResolveHost(c), ResolvePort(c, cfg))
  }

  /** The registration recorded for a container applied under a server name. */
  function RegistrationFor(c: Container, cfg: Config, baseName: string, serverName: string): Registration {
    Registration(serverName, ResolveHost(c), ResolvePort(c, cfg), ShortContainerId(c.id), baseName)
  }

  /** What registerContainer does with the container's address under a name, given the table it
      finds: a matching entry is kept (UNCHANGED) and the table is left as it is; otherwise the
      name ends up at the new address, replacing a different entry (UPDATED) or not
      (REGISTERED), unless the proxy refuses that name and address, which ends in Failed with any
      old entry of the name gone. */
  ghost predicate Registers(o: Outcome, c: Container, cfg: Config, baseName: string, name: string,
                            before: map<string, Address>, after: map<string, Address>,
                            refused: set<(string, Address)>)
  {
    var addr := Desired(c, cfg);
    if name in before && AddressesMatch(before[name], addr) then
      o == Applied(RegistrationFor(c, cfg, baseName, name), Unchanged) && after == before
    else if (name, addr) in refused then
      o == Failed(name) && after == before - {name}
    else
      && o == Applied(RegistrationFor(c, cfg, baseName, name), if name in before then Updated else Registered)
      && after == before[name := addr]
  }

  /** The k-th step of a pass: the container's port is valid, so the pass went on past it; its
      name is the one chooseServerName picks given the names applied before it and the table it
      finds; and the outcome and the table after it are what registerContainer makes of that
      name. */
  ghost predicate StepFor(o: Outcome, p: Pass, k: nat, seen: set<string>,
                          before: map<string, Address>, after: map<string, Address>)
  {
    && k < |p.sorted| && k < |p.bases| && o != InvalidPort && ValidPort(ResolvePort(p.sorted[k], p.cfg))
    && ChosenName(NameOf(o), p.strategy, p.bases, k, p.sorted[k].id, p.previousByName, p.previousByContainer,
                  seen, before)
    && Registers(o, p.sorted[k], p.cfg, p.bases[k], NameOf(o), before, after, p.refused)
  }

  /** A relation between the outcome of a step of a pass, the index of its container, the names
      applied before it, and the table before and after it. */
  type StepRelation = (Outcome, nat, set<string>, map<string, Address>, map<string, Address>) -> bool

  /** The steps of a pass, as StepFor states them. */
  ghost function StepsOf(p: Pass): StepRelation {
    (o, k: nat, seen, before, after) => StepFor(o, p, k, seen, before, after)
  }

  /** The outcomes of a pass so far and the table before and after each step: the k-th outcome is
      a step for the names the earlier steps applied, taking tables[k] to tables[k + 1]. */
  ghost predicate OutcomesFor(outs: seq<Outcome>, tables: seq<map<string, Address>>, step: StepRelation)
    decreases |outs|
  {
    && |tables| == |outs| + 1
    && (outs != [] ==>
          var k := |outs| - 1;
          && OutcomesFor(outs[..k], tables[..k + 1], step)
          && step(outs[k], k, NamesOf(AppliedRegs(outs[..k])), tables[k], tables[k + 1]))
  }

  /** Each recorded outcome is its own step of the pass. */
  lemma {:induction false} OutcomesForAt(outs: seq<Outcome>, tables: seq<map<string, Address>>, step: StepRelation, k: nat)
    requires OutcomesFor(outs, tables, step) && k < |outs|
    ensures step(outs[k], k, NamesOf(AppliedRegs(outs[..k])), tables[k], tables[k + 1])
    decreases |outs|
  {
    var n := |outs| - 1;
    if k < n {
      var init, initTables := outs[..n], tables[..n + 1];
      OutcomesForAt(init, initTables, step, k);
      assert init[k] == outs[k] && init[..k] == outs[..k];
      assert initTables[k] == tables[k] && initTables[k + 1] == tables[k + 1];
    }
  }

  /** Recording one more step extends the outcomes of a pass. */
  lemma OutcomesForSnoc(outs: seq<Outcome>, tables: seq<map<string, Address>>, step: StepRelation,
                        o: Outcome, after: map<string, Address>)
    requires OutcomesFor(outs, tables, step)
    requires step(o, |outs|, NamesOf(AppliedRegs(outs)), tables[|outs|], after)
    ensures OutcomesFor(outs + [o], tables + [after], step)
  {
    assert (outs + [o])[..|outs|] == outs;
    assert (tables + [after])[..|outs| + 1] == tables;
  }

  /** What one step of a pass says: the container's port is valid; an applied outcome carries the
      container's host, port, short id and base name under its name, and UNCHANGED leaves the
      table as it was; a failed one was refused by the proxy at the container's address; under
      OVERWRITE the name is the base name, and under SUFFIX it was not applied earlier in the
      pass. */
  lemma StepFacts(o: Outcome, p: Pass, k: nat, seen: set<string>, before: map<string, Address>,
                  after: map<string, Address>)
    requires StepFor(o, p, k, seen, before, after)
    ensures k < |p.sorted| && k < |p.bases| && ValidPort(ResolvePort(p.sorted[k], p.cfg)) && o != InvalidPort
    ensures o.Applied? ==> o.registration == RegistrationFor(p.sorted[k], p.cfg, p.bases[k], o.registration.serverName)
    ensures o.Applied? && o.status == Unchanged ==> after == before
    ensures o.Failed? ==> (o.serverName, Desired(p.sorted[k], p.cfg)) in p.refused && after == before - {o.serverName}
    ensures p.strategy == Overwrite ==> NameOf(o) == p.bases[k]
    ensures p.strategy == Suffix ==> NameOf(o) !in seen
  {
  }

  /** The same of every recorded outcome of a pass. */
  lemma OutcomeFacts(outs: seq<Outcome>, tables: seq<map<string, Address>>, p: Pass, k: nat)
    requires OutcomesFor(outs, tables, StepsOf(p)) && k < |outs|
    ensures k < |p.sorted| && k < |p.bases| && ValidPort(ResolvePort(p.sorted[k], p.cfg)) && outs[k] != InvalidPort
    ensures outs[k].Applied? ==>
              outs[k].registration == RegistrationFor(p.sorted[k], p.cfg, p.bases[k], outs[k].registration.serverName)
    ensures outs[k].Applied? && outs[k].status == Unchanged ==> tables[k + 1] == tables[k]
    ensures outs[k].Failed? ==>
              (outs[k].serverName, Desired(p.sorted[k], p.cfg)) in p.refused && tables[k + 1] == tables[k] - {outs[k].serverName}
    ensures p.strategy == Overwrite ==> NameOf(outs[k]) == p.bases[k]
    ensures p.strategy == Suffix ==> NameOf(outs[k]) !in NamesOf(AppliedRegs(outs[..k]))
  {
    OutcomesForAt(outs, tables, StepsOf(p), k);
    StepFacts(outs[k], p, k, NamesOf(AppliedRegs(outs[..k])), tables[k], tables[k + 1]);
  }

  /** Every container a pass has recorded an outcome for has a valid port. */
  lemma PortsValid(outs: seq<Outcome>, tables: seq<map<string, Address>>, p: Pass)
    requires OutcomesFor(outs, tables, StepsOf(p))
    ensures forall k :: 0 <= k < |outs| ==> k < |p.sorted| && ValidPort(ResolvePort(p.sorted[k], p.cfg))
  {
    forall k | 0 <= k < |outs|
      ensures k < |p.sorted| && ValidPort(ResolvePort(p.sorted[k], p.cfg))
    {
      OutcomeFacts(outs, tables, p, k);
    }
  }

  /** No step applies a name applied earlier in the pass. */
  ghost predicate FreshNames(step: StepRelation) {
    forall o, k: nat, seen, before, after | step(o, k, seen, before, after) ::
      o.Applied? ==> o.registration.serverName !in seen
  }

  /** When no step applies a name applied earlier in the pass, the names a pass applies are
      distinct. */
  lemma {:induction false} OutcomesDistinct(outs: seq<Outcome>, tables: seq<map<string, Address>>, step: StepRelation)
    requires OutcomesFor(outs, tables, step) && FreshNames(step)
    ensures DistinctNames(AppliedRegs(outs))
    decreases |outs|
  {
    if outs != [] {
      var n := |outs| - 1;
      OutcomesDistinct(outs[..n], tables[..n + 1], step);
      assert outs == outs[..n] + [outs[n]];
      OutcomesSnoc(outs[..n], outs[n]);
      if outs[n].Applied? {
        DistinctSnoc(AppliedRegs(outs[..n]), outs[n].registration);
      }
    }
  }

  /** Under SUFFIX no step applies a name applied earlier in the pass. */
  lemma SuffixStepsFresh(p: Pass)
    requires p.strategy == Suffix
    ensures FreshNames(StepsOf(p))
  {
    forall o, k: nat, seen, before, after | StepsOf(p)(o, k, seen, before, after)
      ensures o.Applied? ==> o.registration.serverName !in seen
    {
      StepFacts(o, p, k, seen, before, after);
    }
  }

  /** When every outcome is applied, the applied registrations are the outcomes' registrations,
      in order. */
  lemma {:induction false} AppliedEvery(outs: seq<Outcome>)
    requires forall k :: 0 <= k < |outs| ==> outs[k].Applied?
    ensures |AppliedRegs(outs)| == |outs|
    ensures forall k :: 0 <= k < |outs| ==> AppliedRegs(outs)[k] == outs[k].registration
  {
    if outs != [] {
      AppliedEvery(outs[..|outs| - 1]);
    }
  }

  /** The premise of a pass that changes nothing: one registration per sorted container, in
      order, recording it under a name of its own; the containers' short ids are distinct; the
      previous registrations are exactly these, indexed by short id; and the table holds every
      one of them at a matching address. */
  ghost predicate Settled(p: Pass, regs: seq<Registration>, lastRegs: seq<Registration>, table: map<string, Address>) {
    && |regs| == |p.sorted| == |p.bases|
    && (forall k :: 0 <= k < |regs| ==> regs[k] == RegistrationFor(p.sorted[k], p.cfg, p.bases[k], regs[k].serverName))
    && DistinctNames(regs)
    && (forall j, k :: 0 <= j < k < |p.sorted| ==> ShortContainerId(p.sorted[j].id) != ShortContainerId(p.sorted[k].id))
    && (forall r :: r in lastRegs <==> r in regs)
    && p.previousByContainer == IndexBy(lastRegs, ContainerId)
    && (forall r | r in regs :: r.serverName in table && AddressesMatch(table[r.serverName], Address(r.host, r.port)))
  }

  /** When the previous registrations are one per container, each under its container's key, and
      the keys are distinct, the index by short id maps each key to its own registration. */
  lemma OwnByContainer(keys: seq<string>, regs: seq<Registration>, lastRegs: seq<Registration>, k: nat)
    requires |regs| == |keys| && k < |regs|
    requires forall j :: 0 <= j < |regs| ==> regs[j].containerId == keys[j]
    requires forall i, j :: 0 <= i < j < |keys| ==> keys[i] != keys[j]
    requires forall r :: r in lastRegs <==> r in regs
    ensures keys[k] in IndexBy(lastRegs, ContainerId)
    ensures IndexBy(lastRegs, ContainerId)[keys[k]] == regs[k]
  {
    var byContainer := IndexBy(lastRegs, ContainerId);
    assert regs[k] in lastRegs;
    assert KeyOf(regs[k], ContainerId) == keys[k];
    var r := byContainer[keys[k]];
    assert KeyOf(r, ContainerId) == keys[k] && r in lastRegs;
    assert r in regs;
    var j :| 0 <= j < |regs| && regs[j] == r;
    assert keys[j] == keys[k];
    assert j == k;
  }

  /** Under SUFFIX, a step whose short id still has its previous registration free this pass,
      recorded for this container at an address the table matches, keeps that registration
      unchanged and leaves the table as it is. */
  lemma StickyStepUnchanged(o: Outcome, p: Pass, k: nat, seen: set<string>, before: map<string, Address>,
                            after: map<string, Address>, reg: Registration)
    requires StepFor(o, p, k, seen, before, after) && p.strategy == Suffix
    requires ShortContainerId(p.sorted[k].id) in p.previousByContainer
    requires p.previousByContainer[ShortContainerId(p.sorted[k].id)] == reg && reg.serverName !in seen
    requires reg == RegistrationFor(p.sorted[k], p.cfg, p.bases[k], reg.serverName)
    requires reg.serverName in before && AddressesMatch(before[reg.serverName], Address(reg.host, reg.port))
    ensures o == Applied(reg, Unchanged) && after == before
  {
    assert Sticky(p.previousByContainer, ShortContainerId(p.sorted[k].id), seen);
  }

  /** The name of a registration is not among those of the registrations before it, when the
      names are distinct. */
  lemma PrefixNamesFresh(regs: seq<Registration>, k: nat)
    requires DistinctNames(regs) && k < |regs|
    ensures regs[k].serverName !in NamesOf(regs[..k])
  {
    forall r | r in regs[..k]
      ensures r.serverName != regs[k].serverName
    {
      var j :| 0 <= j < k && regs[..k][j] == r;
      assert regs[j] == r;
    }
  }

  /** Outcomes that applied given registrations in order have applied exactly those. */
  lemma PrefixApplied(outs: seq<Outcome>, regs: seq<Registration>, k: nat)
    requires k <= |outs| && k <= |regs|
    requires forall j :: 0 <= j < k ==> outs[j] == Applied(regs[j], Unchanged)
    ensures AppliedRegs(outs[..k]) == regs[..k]
  {
    AppliedEvery(outs[..k]);
  }

  /** The previous registration of a settled container's short id is its own. */
  lemma SettledOwn(p: Pass, regs: seq<Registration>, lastRegs: seq<Registration>, table: map<string, Address>, k: nat)
    requires Settled(p, regs, lastRegs, table) && k < |regs|
    ensures ShortContainerId(p.sorted[k].id) in p.previousByContainer
    ensures p.previousByContainer[ShortContainerId(p.sorted[k].id)] == regs[k]
  {
    var keys := seq(|regs|, j requires 0 <= j < |regs| => ShortContainerId(p.sorted[j].id));
    forall j | 0 <= j < |regs|
      ensures regs[j].containerId == keys[j]
    {
      assert regs[j] == RegistrationFor(p.sorted[j], p.cfg, p.bases[j], regs[j].serverName);
    }
    OwnByContainer(keys, regs, lastRegs, k);
  }

  /** Every step of a settled pass under SUFFIX is for one of its containers, and one that finds
      the names of the registrations before it applied and the table as it was keeps its
      registration unchanged and leaves the table as it is. */
  lemma SettledSteps(p: Pass, regs: seq<Registration>, lastRegs: seq<Registration>, table: map<string, Address>)
    requires p.strategy == Suffix && Settled(p, regs, lastRegs, table)
    ensures KeepsRegistrations(StepsOf(p), regs, table)
  {
    forall o, k: nat, seen, before, after | StepsOf(p)(o, k, seen, before, after)
      ensures k < |regs|
      ensures seen == NamesOf(regs[..k]) && before == table ==> o == Applied(regs[k], Unchanged) && after == table
    {
      StepFacts(o, p, k, seen, before, after);
      if seen == NamesOf(regs[..k]) && before == table {
        PrefixNamesFresh(regs, k);
        SettledOwn(p, regs, lastRegs, table, k);
        assert regs[k] in regs;
        StickyStepUnchanged(o, p, k, seen, before, after, regs[k]);
      }
    }
  }

  /** Every step is for one of the registrations, and one that finds the names of the
      registrations before it applied and the table as given keeps its registration unchanged and
      leaves the table as it is. */
  ghost predicate KeepsRegistrations(step: StepRelation, regs: seq<Registration>, table: map<string, Address>) {
    forall o, k: nat, seen, before, after | step(o, k, seen, before, after) ::
      && k < |regs|
      && (seen == NamesOf(regs[..k]) && before == table ==> o == Applied(regs[k], Unchanged) && after == table)
  }

  /** A pass every step of which keeps the registration of its container, when it finds the
      registrations before it applied and the table as it was, keeps every registration and
      leaves the table as it is. */
  lemma {:induction false} UnchangedPass(outs: seq<Outcome>, tables: seq<map<string, Address>>, step: StepRelation,
                                         regs: seq<Registration>, k: nat)
    requires OutcomesFor(outs, tables, step) && KeepsRegistrations(step, regs, tables[0]) && k <= |outs|
    ensures k <= |regs|
    ensures forall j :: 0 <= j < k ==> outs[j] == Applied(regs[j], Unchanged) && tables[j + 1] == tables[0]
    decreases k
  {
    if k > 0 {
      var n := k - 1;
      UnchangedPass(outs, tables, step, regs, n);
      OutcomesForAt(outs, tables, step, n);
      PrefixApplied(outs, regs, n);
      assert tables[n] == tables[0] by {
        if n > 0 {
          assert tables[(n - 1) + 1] == tables[0];
        }
      }
      assert step(outs[n], n, NamesOf(regs[..n]), tables[n], tables[n + 1]);
      assert n < |regs| && outs[n] == Applied(regs[n], Unchanged) && tables[n + 1] == tables[0];
      forall j | 0 <= j < k
        ensures outs[j] == Applied(regs[j], Unchanged) && tables[j + 1] == tables[0]
      {
        if j < n {
          assert outs[j] == Applied(regs[j], Unchanged) && tables[j + 1] == tables[0];
        }
      }
    }
  }


  /** A pass under SUFFIX that applied every container recorded one registration per container,
      in order, with distinct names. */
  lemma {:induction false} FirstPassRegistrations(first: seq<Outcome>, firstTables: seq<map<string, Address>>, p: Pass)
    requires p.strategy == Suffix && OutcomesFor(first, firstTables, StepsOf(p))
    requires forall k :: 0 <= k < |first| ==> first[k].Applied?
    ensures |AppliedRegs(first)| == |first| && DistinctNames(AppliedRegs(first))
    ensures forall k :: 0 <= k < |first| ==>
              && AppliedRegs(first)[k] == first[k].registration
              && first[k].registration == RegistrationFor(p.sorted[k], p.cfg, p.bases[k], first[k].registration.serverName)
  {
    AppliedEvery(first);
    SuffixStepsFresh(p);
    OutcomesDistinct(first, firstTables, StepsOf(p));
    forall k | 0 <= k < |first|
      ensures first[k].registration == RegistrationFor(p.sorted[k], p.cfg, p.bases[k], first[k].registration.serverName)
    {
      OutcomeFacts(first, firstTables, p, k);
    }
  }

  /** The inputs of the next pass over the same scan, with the given registrations recorded. */
  function NextPass(p: Pass, lastRegs: seq<Registration>): Pass {
    p.(previousByName := IndexBy(lastRegs, ServerName), previousByContainer := IndexBy(lastRegs, ContainerId))
  }

  /** After a pass under SUFFIX that applied every container of a scan with distinct short ids,
      the next pass over the same scan, indexing the registrations the first recorded, is settled
      against a table that holds them at matching addresses. */
  lemma {:induction false} SettledAfterFirstPass(first: seq<Outcome>, firstTables: seq<map<string, Address>>, p: Pass,
                              lastRegs: seq<Registration>, table: map<string, Address>)
    requires p.strategy == Suffix && |p.bases| == |p.sorted| == |first|
    requires OutcomesFor(first, firstTables, StepsOf(p))
    requires forall k :: 0 <= k < |first| ==> first[k].Applied?
    requires forall j, k :: 0 <= j < k < |p.sorted| ==> ShortContainerId(p.sorted[j].id) != ShortContainerId(p.sorted[k].id)
    requires forall r :: r in lastRegs <==> r in AppliedRegs(first)
    requires forall r | r in lastRegs :: r.serverName in table && AddressesMatch(table[r.serverName], Address(r.host, r.port))
    ensures NextPass(p, lastRegs).strategy == Suffix && Settled(NextPass(p, lastRegs), AppliedRegs(first), lastRegs, table)
  {
    var regs := AppliedRegs(first);
    FirstPassRegistrations(first, firstTables, p);
    forall k | 0 <= k < |regs|
      ensures regs[k] == RegistrationFor(p.sorted[k], p.cfg, p.bases[k], regs[k].serverName)
    {
      assert regs[k] == first[k].registration;
    }
    forall r | r in regs
      ensures r.serverName in table && AddressesMatch(table[r.serverName], Address(r.host, r.port))
    {
      assert r in lastRegs;
    }
  }

  /** A settled pass under SUFFIX records every container as UNCHANGED with the registration it
      had and leaves the table as it is. */
  lemma {:induction false} SettledPassUnchanged(outs: seq<Outcome>, tables: seq<map<string, Address>>, p: Pass,
                             regs: seq<Registration>, lastRegs: seq<Registration>)
    requires p.strategy == Suffix && OutcomesFor(outs, tables, StepsOf(p))
    requires Settled(p, regs, lastRegs, tables[0])
    ensures |outs| <= |regs|
    ensures forall k :: 0 <= k < |outs| ==> outs[k] == Applied(regs[k], Unchanged) && tables[k + 1] == tables[0]
  {
    SettledSteps(p, regs, lastRegs, tables[0]);
    UnchangedPass(outs, tables, StepsOf(p), regs, |outs|);
  }

  /** refreshContainers is idempotent under SUFFIX: after a pass that applied every container of
      a scan whose short ids are distinct, a second pass over the same scan, against the
      registrations the first recorded and a table that holds them at matching addresses,
      records every container as UNCHANGED under the name the first pass gave it and leaves the
      table as it is. */
  lemma {:induction false} SecondPassUnchanged(first: seq<Outcome>, firstTables: seq<map<string, Address>>, p: Pass,
                                               second: seq<Outcome>, secondTables: seq<map<string, Address>>,
                                               lastRegs: seq<Registration>)
    requires p.strategy == Suffix && |p.bases| == |p.sorted| == |first|
    requires OutcomesFor(first, firstTables, StepsOf(p))
    requires forall k :: 0 <= k < |first| ==> first[k].Applied?
    requires forall j, k :: 0 <= j < k < |p.sorted| ==> ShortContainerId(p.sorted[j].id) != ShortContainerId(p.sorted[k].id)
    requires forall r :: r in lastRegs <==> r in AppliedRegs(first)
    requires OutcomesFor(second, secondTables, StepsOf(NextPass(p, lastRegs)))
    requires forall r | r in lastRegs ::
               r.serverName in secondTables[0] && AddressesMatch(secondTables[0][r.serverName], Address(r.host, r.port))
    ensures |second| <= |first|
    ensures forall k :: 0 <= k < |second| ==>
              second[k] == Applied(first[k].registration, Unchanged) && secondTables[k + 1] == secondTables[0]
  {
    ghost var regs := AppliedRegs(first);
    AppliedEvery(first);
    SettledAfterFirstPass(first, firstTables, p, lastRegs, secondTables[0]);
    SettledPassUnchanged(second, secondTables, NextPass(p, lastRegs), regs, lastRegs);
    forall k | 0 <= k < |second|
      ensures second[k] == Applied(first[k].registration, Unchanged) && secondTables[k + 1] == secondTables[0]
    {
      assert regs[k] == first[k].registration;
    }
  }

  /** Appending a registration adds its name. */
  lemma NamesOfSnoc(rs: seq<Registration>, r: Registration)
    ensures NamesOf(rs + [r]) == NamesOf(rs) + {r.serverName}
  {
    assert forall x :: x in rs + [r] <==> x in rs || x == r;
  }

  /** A registration whose name is new keeps the names distinct. */
  lemma DistinctSnoc(rs: seq<Registration>, r: Registration)
    requires DistinctNames(rs) && r.serverName !in NamesOf(rs)
    ensures DistinctNames(rs + [r])
  {
    forall i | 0 <= i < |rs|
      ensures rs[i].serverName != r.serverName
    {
      assert rs[i] in rs;
    }
  }

  /** The bookkeeping of a pass after the given outcomes: the applied registrations by name, the
      names applied, and the count of each status; under SUFFIX the applied names are distinct. */
  ghost predicate Tallied(outs: seq<Outcome>, t: Tally, strategy: DuplicateStrategy) {
    && t.newRegistrations == RegsMap(AppliedRegs(outs)) && t.seen == t.newRegistrations.Keys
    && t.registered == CountStatus(outs, Registered) && t.updated == CountStatus(outs, Updated)
    && t.unchangedCount == CountStatus(outs, Unchanged)
    && (strategy == Suffix ==> DistinctNames(AppliedRegs(outs)))
  }

  /** The bookkeeping after recording an outcome under a name: an applied registration is added
      under its name and counted by its status; anything else changes nothing. */
  function Record(t: Tally, o: Outcome, name: string): (next: Tally)
    ensures !o.Applied? ==> next == t
    ensures o.Applied? ==>
              next.seen == t.seen + {name} && next.newRegistrations == t.newRegistrations[name := o.registration]
    ensures next.registered + next.updated + next.unchangedCount
            == t.registered + t.updated + t.unchangedCount + (if o.Applied? then 1 else 0)
  {
    if !o.Applied? then t
    else
      var t' := t.(seen := t.seen + {name}, newRegistrations := t.newRegistrations[name := o.registration]);
      match o.status
      case Registered => t'.(registered := t.registered + 1)
      case Updated => t'.(updated := t.updated + 1)
      case Unchanged => t'.(unchangedCount := t.unchangedCount + 1)
  }

  /** Recording one more outcome keeps the bookkeeping. */
  lemma TallyStep(outs: seq<Outcome>, t: Tally, strategy: DuplicateStrategy, o: Outcome, name: string)
    requires Tallied(outs, t, strategy)
    requires o.Applied? ==> o.registration.serverName == name
    requires o.Applied? && strategy == Suffix ==> name !in t.seen
    ensures Tallied(outs + [o], Record(t, o, name), strategy)
  {
    OutcomesSnoc(outs, o);
    CountSnoc(outs, o, Registered);
    CountSnoc(outs, o, Updated);
    CountSnoc(outs, o, Unchanged);
    if o.Applied? {
      RegsMapSnoc(AppliedRegs(outs), o.registration);
      KeysUpdate(t.newRegistrations, name, o.registration);
      if strategy == Suffix {
        DistinctSnoc(AppliedRegs(outs), o.registration);
      }
      var t' := t.(seen := t.seen + {name}, newRegistrations := t.newRegistrations[name := o.registration]);
      match o.status
      case Registered => assert Record(t, o, name) == t'.(registered := t.registered + 1);
      case Updated => assert Record(t, o, name) == t'.(updated := t.updated + 1);
      case Unchanged => assert Record(t, o, name) == t'.(unchangedCount := t.unchangedCount + 1);
    }
  }

  /** Under distinct names, a listing of the map the pass builds holds exactly the applied
      registrations. */
  lemma ListingOfDistinct(s: seq<Registration>, rs: seq<Registration>)
    requires DistinctNames(rs) && Listing(s, RegsMap(rs))
    ensures forall r :: r in s <==> r in rs
    ensures |s| == |rs|
  {
    var m := RegsMap(rs);
    RegsMapDistinct(rs);
    forall r | r in rs
      ensures r in s
    {
      assert r.serverName in NamesOf(s);
      var r' :| r' in s && r'.serverName == r.serverName;
    }
    DistinctNamesSize(s);
    DistinctNamesSize(rs);
  }

  /** new ArrayList<>(newRegistrations.values()): the entries of a map keyed by server name, in
      the unspecified order of a HashMap. */
  method ListValues(m: map<string, Registration>) returns (s: seq<Registration>)
    requires forall k | k in m :: m[k].serverName == k
    ensures Listing(s, m)
  {
    s := [];
    var rest := m.Keys;
    while rest != {}
      invariant rest <= m.Keys
      invariant DistinctNames(s)
      invariant NamesOf(s) == m.Keys - rest
      invariant forall r | r in s :: r.serverName in m && m[r.serverName] == r
      decreases |rest|
    {
      var k :| k in rest;
      DistinctSnoc(s, m[k]);
      NamesOfSnoc(s, m[k]);
      s := s + [m[k]];
      rest := rest - {k};
    }
  }

  /** Every server name recorded this pass is in the table at an address that matches its
      registration. */
  ghost predicate TracksTable(newRegistrations: map<string, Registration>, table: map<string, Address>) {
    forall n | n in newRegistrations ::
      n in table && AddressesMatch(table[n], Address(newRegistrations[n].host, newRegistrations[n].port))
  }

  /** Every server of the initial table that the service did not register is still there, at the
      same address. */
  ghost predicate ForeignKept(initial: map<string, Address>, tracked: set<string>, table: map<string, Address>) {
    forall n | n in initial && n !in tracked :: n in table && table[n] == initial[n]
  }

  /** The connection order only grows, never gains a duplicate, and holds every applied name
      when it can be changed. */
  ghost predicate OrderGrows(initial: seq<string>, order: seq<string>, mutable: bool, applied: set<string>) {
    && initial <= order
    && (NoDuplicates(initial) ==> NoDuplicates(order))
    && (mutable ==> forall n | n in applied :: n in order)
  }

  /** The connection order after the outcomes of a pass: ensureTryIncludes of each applied name
      in turn. A refused registration leaves the order as it was. */
  function OrderAfter(initial: seq<string>, outs: seq<Outcome>, mutable: bool): seq<string> {
    if outs == [] then initial
    else
      var last := outs[|outs| - 1];
      var before := OrderAfter(initial, outs[..|outs| - 1], mutable);
      if last.Applied? then WithTry(before, last.registration.serverName, mutable) else before
  }

  /** One more outcome adds its name to the order through ensureTryIncludes if it was applied,
      and leaves the order as it was otherwise. */
  lemma OrderAfterSnoc(initial: seq<string>, outs: seq<Outcome>, o: Outcome, mutable: bool)
    ensures o.Applied? ==>
              OrderAfter(initial, outs + [o], mutable)
              == WithTry(OrderAfter(initial, outs, mutable), o.registration.serverName, mutable)
    ensures !o.Applied? ==> OrderAfter(initial, outs + [o], mutable) == OrderAfter(initial, outs, mutable)
  {
    assert (outs + [o])[..|outs|] == outs;
  }

  /** The order after a pass extends the initial one without adding a duplicate; it holds
      exactly the initial names and, when it can be changed, the applied names; an immutable
      order is left as it was. */
  lemma {:induction false} OrderAfterGrows(initial: seq<string>, outs: seq<Outcome>, mutable: bool)
    ensures OrderGrows(initial, OrderAfter(initial, outs, mutable), mutable, NamesOf(AppliedRegs(outs)))
    ensures forall n :: n in OrderAfter(initial, outs, mutable) <==>
                          n in initial || (mutable && n in NamesOf(AppliedRegs(outs)))
    ensures !mutable ==> OrderAfter(initial, outs, mutable) == initial
  {
    if outs != [] {
      var init, last := outs[..|outs| - 1], outs[|outs| - 1];
      assert outs == init + [last];
      OrderAfterGrows(initial, init, mutable);
      OutcomesSnoc(init, last);
      if last.Applied? {
        NamesOfSnoc(AppliedRegs(init), last.registration);
      }
    }
  }

  /** The recorded registrations of a pass are in the table at matching addresses, also after
      the servers of other names are removed. */
  lemma ListingTracks(s: seq<Registration>, m: map<string, Registration>, table: map<string, Address>,
                      gone: set<string>)
    requires Listing(s, m) && TracksTable(m, table) && gone !! m.Keys
    ensures forall r | r in s ::
              r.serverName in table - gone && AddressesMatch((table - gone)[r.serverName], Address(r.host, r.port))
  {
  }

  class DockerService {
    /** The proxy the servers are registered with. */
    const server: ProxyServer
    const config: Config
    const strategy: DuplicateStrategy
    /** The server names this service has registered and not yet removed. */
    var registeredNames: set<string>
    /** The registrations of the last completed pass. */
    var lastRegistrations: seq<Registration>
    /** How many containers the last completed pass matched. */
    var lastMatchedCount: nat

    /** registeredNames holds exactly the names of lastRegistrations, one registration per name. */
    ghost predicate Valid()
      reads this
    {
      registeredNames == NamesOf(lastRegistrations) && DistinctNames(lastRegistrations)
    }

    /** A fresh service: nothing registered, the strategy read from the raw configuration value. */
    constructor (server: ProxyServer, config: Config, rawStrategy: Option<string>)
      ensures this.server == server && this.config == config && strategy == StrategyFrom(rawStrategy)
      ensures registeredNames == {} && lastRegistrations == [] && lastMatchedCount == 0
      ensures Valid()
    {
      this.server := server;
      this.config := config;
      this.strategy := StrategyFrom(rawStrategy);
      this.registeredNames := {};
      this.lastRegistrations := [];
      this.lastMatchedCount := 0;
    }

    /** ensureTryIncludes: append the name to the connection order unless it is there already; an
        immutable order is left as it is. */
    method EnsureTryIncludes(name: string)
      modifies server`order
      ensures server.order == WithTry(old(server.order), name, server.orderMutable)
    {
      if name in server.order {
        return;
      }
      var ok := server.AppendToOrder(name);
    }

    /** unregisterServer: drop the name from the proxy when it is there, and from the tracked names
        in any case. */
    method UnregisterServer(name: string)
      modifies this`registeredNames, server`servers
      ensures server.servers == old(server.servers) - {name}
      ensures registeredNames == old(registeredNames) - {name}
    {
      if name !in server.servers {
        registeredNames := registeredNames - {name};
        return;
      }
      server.UnregisterServer(name);
      registeredNames := registeredNames - {name};
    }

    /** unregisterMissing: unregister every tracked name that this pass did not see, in the
        unspecified order of a HashSet, and count them. */
    method UnregisterMissing(seen: set<string>) returns (removed: nat)
      modifies this`registeredNames, server`servers
      ensures registeredNames == old(registeredNames) * seen
      ensures server.servers == old(server.servers) - (old(registeredNames) - seen)
      ensures removed == |old(registeredNames) - seen|
      ensures forall n :: n in old(registeredNames) && n !in seen ==> n !in server.servers
    {
      removed := 0;
      var currentNames := registeredNames;
      var remaining := currentNames;
      while remaining != {}
        invariant remaining <= currentNames
        invariant registeredNames == currentNames - ((currentNames - remaining) - seen)
        invariant server.servers == old(server.servers) - ((currentNames - remaining) - seen)
        invariant removed == |(currentNames - remaining) - seen|
        decreases |remaining|
      {
        var name :| name in remaining;
        ghost var done := (currentNames - remaining) - seen;
        if name !in seen {
          UnregisterServer(name);
          assert name !in done;
          assert (currentNames - (remaining - {name})) - seen == done + {name};
          removed := removed + 1;
        } else {
          assert (currentNames - (remaining - {name})) - seen == done;
        }
        remaining := remaining - {name};
      }
      assert currentNames - (currentNames - seen) == currentNames * seen;
    }

    /** registerContainer: register the container's address under the chosen name, keep a
        matching entry, or replace a different one (remove, then add). A refused add ends in
        Failed, after the removal on the replace path; a port outside 0..65535 ends in InvalidPort
        before anything changes. Every other server is left as it was. */
    method RegisterContainer(c: Container, baseName: string, serverName: string) returns (outcome: Outcome)
      modifies server`servers, server`order
      ensures outcome == InvalidPort <==> !ValidPort(ResolvePort(c, config))
      ensures outcome == InvalidPort ==> server.servers == old(server.servers) && server.order == old(server.order)
      ensures outcome.Applied? ==> outcome.registration == RegistrationFor(c, config, baseName, serverName)
      ensures outcome.Applied? ==> server.order == WithTry(old(server.order), serverName, server.orderMutable)
      ensures outcome.Failed? ==> server.order == old(server.order)
      ensures ValidPort(ResolvePort(c, config)) ==>
                Registers(outcome, c, config, baseName, serverName, old(server.servers), server.servers, server.refused)
      ensures forall n :: n != serverName ==>
                (n in server.servers <==> n in old(server.servers))
                && (n in server.servers ==> server.servers[n] == old(server.servers)[n])
    {
      var port := ResolvePort(c, config);
      var host := ResolveHost(c);
      if !ValidPort(port) {
        return InvalidPort;
      }
      var address := Address(host, port);
      var registration := Registration(serverName, host, port, ShortContainerId(c.id), baseName);
      if serverName in server.servers {
        if AddressesMatch(server.servers[serverName], address) {
          EnsureTryIncludes(serverName);
          return Applied(registration, Unchanged);
        }
        server.UnregisterServer(serverName);
        var ok := server.RegisterServer(serverName, address);
        if !ok {
          return Failed(serverName);
        }
        EnsureTryIncludes(serverName);
        return Applied(registration, Updated);
      }
      var ok := server.RegisterServer(serverName, address);
      if !ok {
        return Failed(serverName);
      }
      EnsureTryIncludes(serverName);
      return Applied(registration, Registered);
    }


    /** chooseServerName as the pass calls it, with what the pass needs of the result: under
        SUFFIX a name not taken this pass, and one the proxy has only if this service registered
        it in the previous pass. */
    method ChooseFor(bases: seq<string>, i: nat, c: Container,
                     previousByName: map<string, Registration>, previousByContainer: map<string, Registration>,
                     seen: set<string>)
      returns (serverName: string)
      requires Valid()
      requires previousByName == IndexBy(lastRegistrations, ServerName)
      requires previousByContainer == IndexBy(lastRegistrations, ContainerId)
      requires i < |bases|
      ensures ChosenName(serverName, strategy, bases, i, c.id, previousByName, previousByContainer, seen, server.servers)
      ensures strategy == Overwrite ==> serverName == bases[i]
      ensures strategy == Suffix ==> serverName !in seen
      ensures strategy == Suffix && serverName in server.servers ==> serverName in registeredNames
    {
      IndexesAgreeOf(lastRegistrations);
      serverName := ChooseServerName(strategy, bases, i, c.id, previousByName, previousByContainer,
                                     seen, server.servers);
      if strategy == Suffix && serverName in server.servers {
        assert previousByName[serverName] in lastRegistrations;
      }
    }

    /** registerContainer as the pass calls it, with what it does to the pass's invariants: under
        SUFFIX the recorded names stay in the table at matching addresses and servers the service
        did not register stay as they were; the connection order is what ensureTryIncludes makes
        of it for an applied name, and is left as it was otherwise. */
    method ApplyContainer(c: Container, baseName: string, serverName: string,
                          newRegistrations: map<string, Registration>, ghost initialTable: map<string, Address>)
      returns (outcome: Outcome)
      requires strategy == Overwrite ==> serverName == baseName
      requires strategy == Suffix ==> serverName !in newRegistrations
      requires strategy == Suffix && serverName in server.servers ==> serverName in registeredNames
      requires strategy == Suffix ==>
                 TracksTable(newRegistrations, server.servers) && ForeignKept(initialTable, registeredNames, server.servers)
      modifies server
      ensures outcome == InvalidPort <==> !ValidPort(ResolvePort(c, config))
      ensures outcome == InvalidPort ==> server.servers == old(server.servers) && server.order == old(server.order)
      ensures outcome.Applied? ==> outcome.registration == RegistrationFor(c, config, baseName, serverName)
      ensures ValidPort(ResolvePort(c, config)) ==>
                Registers(outcome, c, config, baseName, serverName, old(server.servers), server.servers, server.refused)
      ensures strategy == Suffix ==> ForeignKept(initialTable, registeredNames, server.servers)
      ensures outcome.Applied? && strategy == Suffix ==>
                TracksTable(newRegistrations[serverName := outcome.registration], server.servers)
      ensures outcome.Applied? ==> server.order == WithTry(old(server.order), serverName, server.orderMutable)
      ensures !outcome.Applied? ==> server.order == old(server.order)
      ensures outcome.Failed? && strategy == Suffix ==> TracksTable(newRegistrations, server.servers)
    {
      outcome := RegisterContainer(c, baseName, serverName);
      if outcome.Applied? {
        var after := newRegistrations[serverName := outcome.registration];
        if strategy == Suffix {
          assert TracksTable(after, server.servers) by {
            forall n | n in after
              ensures n in server.servers
                      && AddressesMatch(server.servers[n], Address(after[n].host, after[n].port))
            {
              if n == serverName {
                AddressesMatchEquivalence(server.servers[n], server.servers[n], server.servers[n]);
              }
            }
          }
        }
      }
    }

    /** The state of a pass after its first |outcomes| containers: the outcomes follow the pass's
        rules from the initial table to the current one, the bookkeeping records them, under
        SUFFIX the recorded names are in the table at matching addresses and servers the service
        did not register are as they were, and the connection order is the initial one after
        ensureTryIncludes of each applied name in turn. */
    ghost predicate Progress(p: Pass, outcomes: seq<Outcome>, tables: seq<map<string, Address>>, tally: Tally,
                             initialTable: map<string, Address>, initialOrder: seq<string>)
      reads this, server
    {
      && OutcomesFor(outcomes, tables, StepsOf(p))
      && tables[0] == initialTable && tables[|outcomes|] == server.servers
      && Tallied(outcomes, tally, strategy)
      && (strategy == Suffix ==>
            TracksTable(tally.newRegistrations, server.servers) && ForeignKept(initialTable, registeredNames, server.servers))
      && server.order == OrderAfter(initialOrder, outcomes, server.orderMutable)
    }

    /** One iteration of the loop of refreshContainers: choose a name for the i-th container of
        the sorted scan, apply it, and record the outcome. Under SUFFIX the recorded names stay in
        the table at matching addresses and servers the service did not register stay as they
        were; the connection order is the initial one after ensureTryIncludes of each applied
        name. A port outside 0..65535 changes nothing. */
    method ApplyNext(sorted: seq<Container>, bases: seq<string>, i: nat,
                     previousByName: map<string, Registration>, previousByContainer: map<string, Registration>,
                     tally: Tally, ghost outcomes: seq<Outcome>, ghost tables: seq<map<string, Address>>,
                     ghost initialTable: map<string, Address>, ghost initialOrder: seq<string>)
      returns (outcome: Outcome, next: Tally)
      requires Valid()
      requires previousByName == IndexBy(lastRegistrations, ServerName)
      requires previousByContainer == IndexBy(lastRegistrations, ContainerId)
      requires i < |sorted| == |bases| && |outcomes| == i
      requires Progress(Pass(sorted, bases, config, strategy, previousByName, previousByContainer, server.refused),
                        outcomes, tables, tally, initialTable, initialOrder)
      modifies server
      ensures outcome == InvalidPort <==> !ValidPort(ResolvePort(sorted[i], config))
      ensures outcome == InvalidPort ==>
                && next == tally && server.servers == old(server.servers) && server.order == old(server.order)
                && Progress(Pass(sorted, bases, config, strategy, previousByName, previousByContainer, server.refused),
                            outcomes, tables, tally, initialTable, initialOrder)
      ensures outcome != InvalidPort ==>
                Progress(Pass(sorted, bases, config, strategy, previousByName, previousByContainer, server.refused),
                         outcomes + [outcome], tables + [server.servers], next, initialTable, initialOrder)
    {
      var serverName := ChooseFor(bases, i, sorted[i], previousByName, previousByContainer, tally.seen);
      outcome := ApplyContainer(sorted[i], bases[i], serverName, tally.newRegistrations, initialTable);
      OrderAfterSnoc(initialOrder, outcomes, outcome, server.orderMutable);
      if outcome == InvalidPort {
        return outcome, tally;
      }
      assert NameOf(outcome) == serverName;
      TallyStep(outcomes, tally, strategy, outcome, serverName);
      assert tally.seen == NamesOf(AppliedRegs(outcomes));
      OutcomesForSnoc(outcomes, tables,
                      StepsOf(Pass(sorted, bases, config, strategy, previousByName, previousByContainer, server.refused)),
                      outcome, server.servers);
      next := Record(tally, outcome, serverName);
    }

    /** The loop of refreshContainers over the sorted scan: every container in order is given a
        name, applied and recorded. It stops at the first container whose port
        InetSocketAddress rejects, keeping the changes the containers before it made to the
        table and the connection order. */
    method ApplyAll(sorted: seq<Container>, bases: seq<string>,
                    previousByName: map<string, Registration>, previousByContainer: map<string, Registration>)
      returns (interrupted: bool, ghost outcomes: seq<Outcome>, ghost tables: seq<map<string, Address>>, tally: Tally)
      requires Valid()
      requires previousByName == IndexBy(lastRegistrations, ServerName)
      requires previousByContainer == IndexBy(lastRegistrations, ContainerId)
      requires |bases| == |sorted|
      modifies server
      ensures interrupted <==> exists k :: 0 <= k < |sorted| && !ValidPort(ResolvePort(sorted[k], config))
      ensures interrupted ==> |outcomes| < |sorted| && !ValidPort(ResolvePort(sorted[|outcomes|], config))
      ensures !interrupted ==> |outcomes| == |sorted|
      ensures Progress(Pass(sorted, bases, config, strategy, previousByName, previousByContainer, server.refused),
                       outcomes, tables, tally, old(server.servers), old(server.order))
    {
      ghost var p := Pass(sorted, bases, config, strategy, previousByName, previousByContainer, server.refused);
      outcomes, tables := [], [server.servers];
      tally := Tally({}, map[], 0, 0, 0);
      var i := 0;
      while i < |sorted|
        invariant 0 <= i <= |sorted| && |outcomes| == i
        invariant Progress(p, outcomes, tables, tally, old(server.servers), old(server.order))
      {
        var outcome;
        outcome, tally := ApplyNext(sorted, bases, i, previousByName, previousByContainer, tally, outcomes, tables,
                                    old(server.servers), old(server.order));
        if outcome == InvalidPort {
          interrupted := true;
          return;
        }
        outcomes, tables := outcomes + [outcome], tables + [server.servers];
        i := i + 1;
      }
      PortsValid(outcomes, tables, p);
      interrupted := false;
    }

    /** The end of a pass of refreshContainers that ran through the whole scan: unregister the
        tracked servers not applied this pass and replace the bookkeeping with the pass's. */
    method Commit(tally: Tally, ghost outcomes: seq<Outcome>, matched: nat, ghost initialTable: map<string, Address>)
      returns (removed: nat)
      requires Tallied(outcomes, tally, strategy)
      requires strategy == Suffix ==>
                 TracksTable(tally.newRegistrations, server.servers) && ForeignKept(initialTable, registeredNames, server.servers)
      modifies this, server`servers
      ensures Valid()
      ensures registeredNames == tally.seen && lastMatchedCount == matched && server.order == old(server.order)
      ensures Listing(lastRegistrations, RegsMap(AppliedRegs(outcomes)))
      ensures server.servers == old(server.servers) - (old(registeredNames) - tally.seen)
      ensures removed == |old(registeredNames) - registeredNames|
      ensures forall n :: n in old(registeredNames) && n !in registeredNames ==> n !in server.servers
      ensures strategy == Suffix ==>
                && (forall r :: r in lastRegistrations <==> r in AppliedRegs(outcomes))
                && |lastRegistrations| == |AppliedRegs(outcomes)|
                && (forall r :: r in lastRegistrations ==>
                      r.serverName in server.servers && AddressesMatch(server.servers[r.serverName], Address(r.host, r.port)))
                && ForeignKept(initialTable, old(registeredNames), server.servers)
    {
      ghost var tableBefore, namesBefore := server.servers, registeredNames;
      removed := UnregisterMissing(tally.seen);
      registeredNames := tally.seen;
      var listing := ListValues(tally.newRegistrations);
      lastRegistrations := listing;
      lastMatchedCount := matched;
      if strategy == Suffix {
        ListingOfDistinct(listing, AppliedRegs(outcomes));
        ListingTracks(listing, tally.newRegistrations, tableBefore, namesBefore - tally.seen);
      }
    }

    /** A pass over a scan that ran to the end, from the given table, tracked names and previous
        registrations: one outcome per container, each the step of the pass for that container of
        the sorted scan, from the table before it to the table after it; the final table is the
        last step's table without the tracked names not applied this pass; the tracked names are
        the applied names, the last registrations a listing of the applied registrations and the
        matched count the scan size; and the summary counts the outcomes by status and the
        unregistered names; the connection order is the initial one after ensureTryIncludes of
        each applied name in turn. */
    ghost predicate CompletedPass(scan: seq<Container>, outcomes: seq<Outcome>, tables: seq<map<string, Address>>,
                                  initialTable: map<string, Address>, initialOrder: seq<string>,
                                  initialNames: set<string>, initialRegs: seq<Registration>, summary: Summary)
      reads this, server
    {
      && |outcomes| == |scan| && lastMatchedCount == |scan|
      && ResolveAll(SortById(scan), config).Some?
      && OutcomesFor(outcomes, tables,
                     StepsOf(Pass(SortById(scan), ResolveAll(SortById(scan), config).value, config, strategy,
                                  IndexBy(initialRegs, ServerName), IndexBy(initialRegs, ContainerId), server.refused)))
      && tables[0] == initialTable
      && server.servers == tables[|scan|] - (initialNames - registeredNames)
      && server.order == OrderAfter(initialOrder, outcomes, server.orderMutable)
      && registeredNames == RegsMap(AppliedRegs(outcomes)).Keys
      && Listing(lastRegistrations, RegsMap(AppliedRegs(outcomes)))
      && summary == Summary(|scan|, CountStatus(outcomes, Registered), CountStatus(outcomes, Updated),
                            CountStatus(outcomes, Unchanged), |initialNames - registeredNames|)
      && (forall n :: n in initialNames && n !in registeredNames ==> n !in server.servers)
    }

    /** A pass over a scan whose base names all resolve, cut short by the port of the container
        after the recorded ones: the outcomes so far are the steps of the pass for the first
        containers of the sorted scan, the table is the last step's table, and the connection
        order is the initial one after ensureTryIncludes of each applied name, as the exception
        InetSocketAddress throws leaves them. */
    ghost predicate PortInterruptedPass(scan: seq<Container>, outcomes: seq<Outcome>, tables: seq<map<string, Address>>,
                                        initialTable: map<string, Address>, initialOrder: seq<string>,
                                        initialRegs: seq<Registration>)
      reads this, server
    {
      && |outcomes| < |scan|
      && ResolveAll(SortById(scan), config).Some?
      && !ValidPort(ResolvePort(SortById(scan)[|outcomes|], config))
      && OutcomesFor(outcomes, tables,
                     StepsOf(Pass(SortById(scan), ResolveAll(SortById(scan), config).value, config, strategy,
                                  IndexBy(initialRegs, ServerName), IndexBy(initialRegs, ContainerId), server.refused)))
      && tables[0] == initialTable && server.servers == tables[|outcomes|]
      && server.order == OrderAfter(initialOrder, outcomes, server.orderMutable)
    }

    /** The empty branch of refreshContainers completes a pass: nothing is recorded, the table
        loses every tracked name, and the bookkeeping is cleared. */
    lemma EmptyPassCompleted(scan: seq<Container>, outcomes: seq<Outcome>, tables: seq<map<string, Address>>,
                             initialTable: map<string, Address>, initialOrder: seq<string>,
                             initialNames: set<string>, initialRegs: seq<Registration>, summary: Summary)
      requires scan == [] && outcomes == [] && tables == [initialTable] && server.order == initialOrder
      requires summary == Summary(0, 0, 0, 0, |initialNames|)
      requires registeredNames == {} && lastRegistrations == [] && lastMatchedCount == 0
      requires server.servers == initialTable - initialNames
      ensures CompletedPass(scan, outcomes, tables, initialTable, initialOrder, initialNames, initialRegs, summary)
    {
      assert SortById([]) == [];
    }

    /** refreshContainers on a scan that is not empty: sort it by id, index the previous
        registrations, derive every base name, apply every container in order, and commit. */
    method Reconcile(scan: seq<Container>) returns (result: RefreshResult, ghost outcomes: seq<Outcome>,
                                                              ghost tables: seq<map<string, Address>>)
      requires Valid() && scan != []
      modifies this, server
      ensures Valid()
      ensures result.Interrupted? <==>
                exists c :: c in scan && (ResolveServerName(c, config).None? || !ValidPort(ResolvePort(c, config)))
      ensures result.Interrupted? ==>
                && registeredNames == old(registeredNames) && lastRegistrations == old(lastRegistrations)
                && lastMatchedCount == old(lastMatchedCount)
      ensures (exists c :: c in scan && ResolveServerName(c, config).None?) ==>
                server.servers == old(server.servers) && server.order == old(server.order)
      ensures result.Completed? ==>
                CompletedPass(scan, outcomes, tables, old(server.servers), old(server.order), old(registeredNames),
                              old(lastRegistrations), result.summary)
      ensures result.Interrupted? && ResolveAll(SortById(scan), config).Some? ==>
                PortInterruptedPass(scan, outcomes, tables, old(server.servers), old(server.order), old(lastRegistrations))
      ensures OrderGrows(old(server.order), server.order, server.orderMutable,
                         if result.Completed? then registeredNames else {})
      ensures result.Completed? && strategy == Suffix ==>
                && (forall r :: r in lastRegistrations <==> r in AppliedRegs(outcomes))
                && |lastRegistrations| == result.summary.registered + result.summary.updated + result.summary.unchangedCount
                && (forall r :: r in lastRegistrations ==>
                      r.serverName in server.servers && AddressesMatch(server.servers[r.serverName], Address(r.host, r.port)))
      ensures strategy == Suffix ==> ForeignKept(old(server.servers), old(registeredNames), server.servers)
    {
      outcomes, tables := [], [server.servers];
      var sorted := SortById(scan);
      SortByIdMembers(scan);
      var previousByName := IndexBy(lastRegistrations, ServerName);
      var previousByContainer := IndexBy(lastRegistrations, ContainerId);
      var resolved := ResolveAll(sorted, config);
      if resolved.None? {
        return Interrupted, outcomes, tables;
      }
      var bases := resolved.value;
      var interrupted, tally;
      interrupted, outcomes, tables, tally := ApplyAll(sorted, bases, previousByName, previousByContainer);
      if interrupted {
        ghost var k :| 0 <= k < |sorted| && !ValidPort(ResolvePort(sorted[k], config));
        assert sorted[k] in scan;
        OrderAfterGrows(old(server.order), outcomes, server.orderMutable);
        return Interrupted, outcomes, tables;
      }
      var removed := Commit(tally, outcomes, |scan|, old(server.servers));
      AppliedCount(outcomes);
      OrderAfterGrows(old(server.order), outcomes, server.orderMutable);
      result := Completed(Summary(|sorted|, tally.registered, tally.updated, tally.unchangedCount, removed));
    }

    /** refreshContainers: one reconciliation pass over a scan. An empty scan unregisters every
        tracked server. Otherwise the scan is sorted by id, every container is given a name and
        applied in that order, the tracked servers not applied this pass are unregistered, and
        the bookkeeping is replaced. A base name that cannot be derived stops the pass before
        anything changes; a port outside 0..65535 stops it at that container, keeping the table
        changes made so far but none of the bookkeeping. */
    method RefreshContainers(scan: seq<Container>) returns (result: RefreshResult, ghost outcomes: seq<Outcome>,
                                                              ghost tables: seq<map<string, Address>>)
      requires Valid()
      modifies this, server
      ensures Valid()
      ensures result.Interrupted? <==>
                exists c :: c in scan && (ResolveServerName(c, config).None? || !ValidPort(ResolvePort(c, config)))
      ensures result.Interrupted? ==>
                && registeredNames == old(registeredNames) && lastRegistrations == old(lastRegistrations)
                && lastMatchedCount == old(lastMatchedCount)
      ensures (exists c :: c in scan && ResolveServerName(c, config).None?) ==>
                server.servers == old(server.servers) && server.order == old(server.order)
      ensures scan == [] ==> && result == Completed(Summary(0, 0, 0, 0, |old(registeredNames)|))
                             && registeredNames == {} && lastRegistrations == [] && lastMatchedCount == 0
                             && server.servers == old(server.servers) - old(registeredNames)
      ensures result.Completed? ==>
                CompletedPass(scan, outcomes, tables, old(server.servers), old(server.order), old(registeredNames),
                              old(lastRegistrations), result.summary)
      ensures result.Interrupted? && ResolveAll(SortById(scan), config).Some? ==>
                PortInterruptedPass(scan, outcomes, tables, old(server.servers), old(server.order), old(lastRegistrations))
      ensures OrderGrows(old(server.order), server.order, server.orderMutable,
                         if result.Completed? then registeredNames else {})
      ensures result.Completed? && strategy == Suffix ==>
                && (forall r :: r in lastRegistrations <==> r in AppliedRegs(outcomes))
                && |lastRegistrations| == result.summary.registered + result.summary.updated + result.summary.unchangedCount
                && (forall r :: r in lastRegistrations ==>
                      r.serverName in server.servers && AddressesMatch(server.servers[r.serverName], Address(r.host, r.port)))
      ensures strategy == Suffix ==> ForeignKept(old(server.servers), old(registeredNames), server.servers)
    {
      if scan == [] {
        var removed := UnregisterMissing({});
        registeredNames := {};
        lastRegistrations := [];
        lastMatchedCount := 0;
        result, outcomes, tables := Completed(Summary(0, 0, 0, 0, removed)), [], [old(server.servers)];
        EmptyPassCompleted(scan, outcomes, tables, old(server.servers), old(server.order), old(registeredNames),
                           old(lastRegistrations), result.summary);
        return;
      }
      result, outcomes, tables := Reconcile(scan);
    }
  }
}
