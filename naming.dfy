/**
 * The duplicate-name resolver of DockerService: the configured strategy, the registrations a
 * pass records, and how one container's server name is chosen (chooseServerName,
 * ensureUniqueName, nameConflicts).
 */
module Naming {
  import opened Wrappers
  import opened JavaStrings
  import opened Containers
  import opened Proxy

  /** DuplicateStrategy. */
  datatype DuplicateStrategy = Suffix | Overwrite

  /** DuplicateStrategy.from: trimmed, lower-cased "overwrite" selects Overwrite; null, "suffix"
      and every unknown value select Suffix. */
  function StrategyFrom(raw: Option<string>): (r: DuplicateStrategy)
    ensures r == Overwrite <==> raw.Some? && ToLowerAscii(Trim(raw.value)) == "overwrite"
  {
    match raw
    case None => Suffix
    case Some(s) =>
      var key := ToLowerAscii(Trim(s));
      if key == "suffix" then Suffix
      else if key == "overwrite" then Overwrite
      else Suffix
  }

  /** One applied container: its server name, address, 12-character short id and base name. */
  datatype Registration = Registration(serverName: string, host: string, port: int, containerId: string, baseName: string)

  function NamesOf(regs: seq<Registration>): set<string> {
    set r | r in regs :: r.serverName
  }

  predicate DistinctNames(regs: seq<Registration>) {
    forall i, j :: 0 <= i < j < |regs| ==> regs[i].serverName != regs[j].serverName
  }

  /** The two keys the previous registrations are indexed by. */
  datatype Key = ServerName | ContainerId

  function KeyOf(r: Registration, key: Key): string {
    match key
    case ServerName => r.serverName
    case ContainerId => r.containerId
  }

  /** previousByName / previousByContainer: Collectors.toMap with the merge (a, b) -> a, so every
      key present in the list maps to a registration that has it. */
  function IndexBy(regs: seq<Registration>, key: Key): (m: map<string, Registration>)
    ensures forall k | k in m :: m[k] in regs && KeyOf(m[k], key) == k
    ensures forall r | r in regs :: KeyOf(r, key) in m
  {
    if regs == [] then map[]
    else IndexBy(regs[1..], key)[KeyOf(regs[0], key) := regs[0]]
  }

  /** The merge keeps the first registration in list order that has the key. */
  lemma {:induction false} IndexByFirst(regs: seq<Registration>, key: Key, j: nat)
    requires j < |regs|
    requires forall i :: 0 <= i < j ==> KeyOf(regs[i], key) != KeyOf(regs[j], key)
    ensures IndexBy(regs, key)[KeyOf(regs[j], key)] == regs[j]
  {
    if j > 0 {
      IndexByFirst(regs[1..], key, j - 1);
    }
  }

  /** nameConflicts: the name is taken this pass, or the proxy has it and no previous registration
      of the same short id owns it. */
  predicate NameConflicts(name: string, previousByName: map<string, Registration>, seen: set<string>,
                          containerKey: string, table: map<string, Address>)
  {
    || name in seen
    || (name in table && !(name in previousByName && previousByName[name].containerId == containerKey))
  }

  function WithSuffix(baseName: string, suffix: string): string {
    baseName + "-" + suffix
  }

  function Numbered(baseName: string, suffix: string, n: nat): string {
    baseName + "-" + suffix + "-" + NatToString(n)
  }

  lemma NumberedInjective(baseName: string, suffix: string, m: nat, n: nat)
    requires Numbered(baseName, suffix, m) == Numbered(baseName, suffix, n)
    ensures m == n
  {
    var p := baseName + "-" + suffix + "-";
    assert NatToString(m) == Numbered(baseName, suffix, m)[|p|..];
    assert NatToString(n) == Numbered(baseName, suffix, n)[|p|..];
    NatToStringInjective(m, n);
  }

  /** The numbered names the collision loop proposes before "base-suffix-n". */
  ghost function NumberedBelow(baseName: string, suffix: string, n: nat): set<string> {
    if n <= 1 then {} else NumberedBelow(baseName, suffix, n - 1) + {Numbered(baseName, suffix, n - 1)}
  }

  /** "base-suffix-n" is none of the names numbered lower, so the collision loop never proposes a
      name twice. */
  lemma {:induction false} NumberedIsFresh(baseName: string, suffix: string, n: nat, m: nat)
    requires n <= m
    ensures Numbered(baseName, suffix, m) !in NumberedBelow(baseName, suffix, n)
  {
    if n > 1 {
      NumberedIsFresh(baseName, suffix, n - 1, m);
      if Numbered(baseName, suffix, n - 1) == Numbered(baseName, suffix, m) {
        NumberedInjective(baseName, suffix, n - 1, m);
      }
    }
  }

  /** The names numbered below n are n - 1 distinct names. */
  lemma {:induction false} NumberedBelowSize(baseName: string, suffix: string, n: nat)
    requires n >= 1
    ensures |NumberedBelow(baseName, suffix, n)| == n - 1
  {
    if n > 1 {
      NumberedBelowSize(baseName, suffix, n - 1);
      NumberedIsFresh(baseName, suffix, n - 1, n - 1);
    }
  }

  /** A rejected name is one taken this pass or present in the proxy. */
  lemma NumberedBelowGrows(baseName: string, suffix: string, n: nat, previousByName: map<string, Registration>,
                           seen: set<string>, containerKey: string, table: map<string, Address>)
    requires n >= 1
    requires NumberedBelow(baseName, suffix, n) <= seen + table.Keys
    requires NameConflicts(Numbered(baseName, suffix, n), previousByName, seen, containerKey, table)
    ensures NumberedBelow(baseName, suffix, n + 1) <= seen + table.Keys
  {
  }

  lemma {:induction false} SubsetSize<T>(a: set<T>, b: set<T>)
    requires a <= b
    ensures |a| <= |b|
  {
    if a != {} {
      var x :| x in a;
      SubsetSize(a - {x}, b - {x});
    }
  }

  /** Every numbered name below n conflicts: the names the collision loop has rejected. */
  ghost predicate ConflictsBelow(baseName: string, suffix: string, n: nat, previousByName: map<string, Registration>,
                                 seen: set<string>, containerKey: string, table: map<string, Address>)
  {
    n <= 1 || (ConflictsBelow(baseName, suffix, n - 1, previousByName, seen, containerKey, table)
               && NameConflicts(Numbered(baseName, suffix, n - 1), previousByName, seen, containerKey, table))
  }

  lemma {:induction false} ConflictsBelowAll(baseName: string, suffix: string, n: nat, previousByName: map<string, Registration>,
                                             seen: set<string>, containerKey: string, table: map<string, Address>)
    ensures ConflictsBelow(baseName, suffix, n, previousByName, seen, containerKey, table) <==>
            forall k :: 1 <= k < n ==> NameConflicts(Numbered(baseName, suffix, k), previousByName, seen, containerKey, table)
  {
    if n > 1 {
      ConflictsBelowAll(baseName, suffix, n - 1, previousByName, seen, containerKey, table);
    }
  }

  /** What ensureUniqueName returns: the candidate when it is free, else "base-suffix" when that is
      free, else the first free "base-suffix-n" for n = 1, 2, ... */
  ghost predicate FirstFreeName(name: string, candidate: string, baseName: string, suffix: string,
                                previousByName: map<string, Registration>, seen: set<string>,
                                containerKey: string, table: map<string, Address>)
  {
    && !NameConflicts(name, previousByName, seen, containerKey, table)
    && (!NameConflicts(candidate, previousByName, seen, containerKey, table) ==> name == candidate)
    && (NameConflicts(candidate, previousByName, seen, containerKey, table)
        && !NameConflicts(WithSuffix(baseName, suffix), previousByName, seen, containerKey, table)
        ==> name == WithSuffix(baseName, suffix))
    && (NameConflicts(candidate, previousByName, seen, containerKey, table)
        && NameConflicts(WithSuffix(baseName, suffix), previousByName, seen, containerKey, table)
        ==> exists n :: n >= 1 && name == Numbered(baseName, suffix, n)
                        && ConflictsBelow(baseName, suffix, n, previousByName, seen, containerKey, table))
  }

  /** ensureUniqueName: the candidate if it is free, else "base-suffix" if that is free, else the
      collision loop. */
  method EnsureUniqueName(candidate: string, baseName: string, suffix: string,
                          previousByName: map<string, Registration>, seen: set<string>,
                          containerKey: string, table: map<string, Address>)
    returns (name: string)
    ensures FirstFreeName(name, candidate, baseName, suffix, previousByName, seen, containerKey, table)
  {
    if !NameConflicts(candidate, previousByName, seen, containerKey, table) {
      return candidate;
    }
    var withSuffix := WithSuffix(baseName, suffix);
    if !NameConflicts(withSuffix, previousByName, seen, containerKey, table) {
      return withSuffix;
    }
    ghost var n;
    name, n := FirstFreeNumbered(baseName, suffix, previousByName, seen, containerKey, table);
  }

  /** The collision loop of ensureUniqueName: it tries "base-suffix-1", "base-suffix-2", ... and
      returns the first that is free. It ends because every name it rejects is one of the finitely
      many names taken this pass or present in the proxy, and it never proposes a name twice. */
  method FirstFreeNumbered(baseName: string, suffix: string, previousByName: map<string, Registration>,
                           seen: set<string>, containerKey: string, table: map<string, Address>)
    returns (name: string, ghost n: nat)
    ensures !NameConflicts(name, previousByName, seen, containerKey, table)
    ensures n >= 1 && name == Numbered(baseName, suffix, n)
    ensures ConflictsBelow(baseName, suffix, n, previousByName, seen, containerKey, table)
  {
    var counter: nat := 1;
    ghost var taken := seen + table.Keys;
    while NameConflicts(Numbered(baseName, suffix, counter), previousByName, seen, containerKey, table)
      invariant counter >= 1
      invariant ConflictsBelow(baseName, suffix, counter, previousByName, seen, containerKey, table)
      invariant NumberedBelow(baseName, suffix, counter) <= taken
      invariant counter <= |taken| + 1
      decreases |taken| + 1 - counter
    {
      NumberedBelowGrows(baseName, suffix, counter, previousByName, seen, containerKey, table);
      NumberedBelowSize(baseName, suffix, counter + 1);
      SubsetSize(NumberedBelow(baseName, suffix, counter + 1), taken);
      counter := counter + 1;
    }
    name, n := Numbered(baseName, suffix, counter), counter;
  }

  /** How many containers of the pass share a base name. */
  function GroupSize(bases: seq<string>, baseName: string): (n: nat)
    ensures n == multiset(bases)[baseName]
    ensures n == 0 <==> baseName !in bases
  {
    if bases == [] then 0
    else
      assert bases == [bases[0]] + bases[1..];
      (if bases[0] == baseName then 1 else 0) + GroupSize(bases[1..], baseName)
  }

  /** group.get(0) == container: the container is the first of its group in the sorted pass. */
  predicate IsPrimary(bases: seq<string>, i: nat)
    requires i < |bases|
  {
    forall j :: 0 <= j < i ==> bases[j] != bases[i]
  }

  /** The candidate before the uniqueness check: in a group of more than one the primary keeps
      the base name and every other member gets "base-suffix"; a single container keeps it. */
  function GroupCandidate(bases: seq<string>, i: nat, suffix: string): string
    requires i < |bases|
  {
    if GroupSize(bases, bases[i]) > 1 && !IsPrimary(bases, i) then WithSuffix(bases[i], suffix)
    else bases[i]
  }

  /** In a pass sorted by id, the primary of a group is its member with the lowest id; it is the
      only member whose candidate is the bare base name when the group has more than one. */
  lemma {:induction false} PrimaryHasLowestId(ids: seq<string>, bases: seq<string>, i: nat, j: nat)
    requires |ids| == |bases| && i < |bases| && j < |bases|
    requires forall a, b :: 0 <= a < b < |ids| ==> CompareTo(ids[a], ids[b]) <= 0
    requires IsPrimary(bases, i) && bases[j] == bases[i]
    ensures CompareTo(ids[i], ids[j]) <= 0
    ensures j != i && GroupSize(bases, bases[i]) > 1 ==> GroupCandidate(bases, j, ShortContainerSuffix(ids[j], 6)) != bases[i]
  {
    if j == i {
      CompareToZero(ids[i], ids[j]);
    } else {
      assert i < j;
      assert !IsPrimary(bases, j);
      var sfx := ShortContainerSuffix(ids[j], 6);
      if GroupSize(bases, bases[i]) > 1 {
        assert GroupCandidate(bases, j, sfx) == WithSuffix(bases[j], sfx);
      }
    }
  }

  /** The previous registration of this short id, when its name is still free this pass. */
  predicate Sticky(previousByContainer: map<string, Registration>, containerKey: string, seen: set<string>) {
    containerKey in previousByContainer && previousByContainer[containerKey].serverName !in seen
  }

  /** previousByName and previousByContainer index one list of registrations: the registration a
      short id maps to is also the one its server name maps to. */
  predicate IndexesAgree(previousByName: map<string, Registration>, previousByContainer: map<string, Registration>) {
    forall k | k in previousByContainer ::
      && previousByContainer[k].containerId == k
      && previousByContainer[k].serverName in previousByName
      && previousByName[previousByContainer[k].serverName] == previousByContainer[k]
  }

  /** The two indexes refreshContainers builds from a list with distinct server names agree. */
  lemma IndexesAgreeOf(regs: seq<Registration>)
    requires DistinctNames(regs)
    ensures IndexesAgree(IndexBy(regs, ServerName), IndexBy(regs, ContainerId))
  {
    var byName, byContainer := IndexBy(regs, ServerName), IndexBy(regs, ContainerId);
    forall k | k in byContainer
      ensures byContainer[k].serverName in byName && byName[byContainer[k].serverName] == byContainer[k]
    {
      var j :| 0 <= j < |regs| && regs[j] == byContainer[k];
      IndexByFirst(regs, ServerName, j);
    }
  }

  /** The name chooseServerName picks for the i-th container of the pass: the base name under
      OVERWRITE; under SUFFIX the previous name of the same short id while that is free this pass,
      else what ensureUniqueName makes of the group candidate. */
  ghost predicate ChosenName(name: string, strategy: DuplicateStrategy, bases: seq<string>, i: nat, id: string,
                             previousByName: map<string, Registration>,
                             previousByContainer: map<string, Registration>,
                             seen: set<string>, table: map<string, Address>)
  {
    && i < |bases|
    && (strategy == Overwrite ==> name == bases[i])
    && (strategy == Suffix && Sticky(previousByContainer, ShortContainerId(id), seen) ==>
          name == previousByContainer[ShortContainerId(id)].serverName)
    && (strategy == Suffix && !Sticky(previousByContainer, ShortContainerId(id), seen) ==>
          FirstFreeName(name, GroupCandidate(bases, i, ShortContainerSuffix(id, 6)), bases[i],
                        ShortContainerSuffix(id, 6), previousByName, seen, ShortContainerId(id), table))
  }

  /** chooseServerName for the i-th container of the sorted pass, whose base names are bases.
      Under SUFFIX the name is never one taken this pass, and one the proxy already has only when
      the previous pass registered it for the same short id. */
  method ChooseServerName(strategy: DuplicateStrategy, bases: seq<string>, i: nat, id: string,
                          previousByName: map<string, Registration>,
                          previousByContainer: map<string, Registration>,
                          seen: set<string>, table: map<string, Address>)
    returns (name: string)
    requires i < |bases|
    requires IndexesAgree(previousByName, previousByContainer)
    ensures ChosenName(name, strategy, bases, i, id, previousByName, previousByContainer, seen, table)
    ensures strategy == Suffix ==> name !in seen
    ensures strategy == Suffix && name in table ==>
              name in previousByName && previousByName[name].containerId == ShortContainerId(id)
  {
    if strategy == Overwrite {
      return bases[i];
    }
    var containerKey := ShortContainerId(id);
    if containerKey in previousByContainer && previousByContainer[containerKey].serverName !in seen {
      return previousByContainer[containerKey].serverName;
    }
    var suffix := ShortContainerSuffix(id, 6);
    var candidate := GroupCandidate(bases, i, suffix);
    name := EnsureUniqueName(candidate, bases[i], suffix, previousByName, seen, containerKey, table);
  }
}
