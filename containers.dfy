/**
 * What the reconciler reads from one Docker container, and the pure rules that turn a
 * container into a base server name, a port and a host (DockerService.resolveServerName,
 * resolvePort, resolveHost, shortContainerId, shortContainerSuffix), plus the sort by id
 * that starts every non-empty pass.
 */
module Containers {
  import opened Wrappers
  import opened JavaStrings

  /** One container of a scan: its id, its names (Docker reports them with a leading "/"), its
      labels, and the container-side ports of its declared port mappings, in order. A null names
      or ports array is the empty sequence here, since the Java code treats both alike. */
  datatype Container = Container(id: string, names: seq<string>, labels: map<string, string>, privatePorts: seq<int>)

  /** The label keys that override the name and the port. */
  datatype Config = Config(nameLabel: string, portLabel: string)

  const DefaultPort: int := 25565
  const FallbackHost: string := "localhost"
  const ShortIdLength: nat := 12

  /** The label is present and not blank. */
  predicate HasLabel(c: Container, key: string) {
    key in c.labels && !IsBlank(c.labels[key])
  }

  function StripLeadingSlash(raw: string): string {
    if raw != [] && raw[0] == '/' then raw[1..] else raw
  }

  /** The 12-character short id that registrations are keyed by. */
  function ShortContainerId(id: string): (r: string)
    ensures r <= id && |r| == Min(ShortIdLength, |id|)
  {
    Prefix(id, ShortIdLength)
  }

  /** The first `length` characters of the short id. */
  function ShortContainerSuffix(id: string, length: nat): (r: string)
    ensures r <= ShortContainerId(id) && r <= id
    ensures |r| == Min(length, Min(ShortIdLength, |id|))
  {
    Prefix(ShortContainerId(id), length)
  }

  /** The host: the first name without its leading "/", or "localhost" for a container without names. */
  function ResolveHost(c: Container): (r: string)
    ensures c.names == [] ==> r == FallbackHost
    ensures c.names != [] && c.names[0] != [] && c.names[0][0] == '/' ==> ['/'] + r == c.names[0]
    ensures c.names != [] && (c.names[0] == [] || c.names[0][0] != '/') ==> r == c.names[0]
  {
    if c.names != [] then StripLeadingSlash(c.names[0]) else FallbackHost
  }

  /** The base server name: the trimmed name label when it is present and not blank, else the host
      taken from the first name, else the first 12 characters of the id. For an id shorter than
      12 characters that last step throws (substring out of range), which is None here. */
  function ResolveServerName(c: Container, cfg: Config): Option<string> {
    if HasLabel(c, cfg.nameLabel) then Some(Trim(c.labels[cfg.nameLabel]))
    else if c.names != [] then Some(StripLeadingSlash(c.names[0]))
    else if |c.id| >= ShortIdLength then Some(c.id[..ShortIdLength])
    else None
  }

  /** The precedence of the name sources: a name label that is not blank, trimmed; else the host
      of the first name; else the 12-character short id; for an id shorter than that, nothing. */
  lemma NamePrecedence(c: Container, cfg: Config)
    ensures ResolveServerName(c, cfg).None? <==> !HasLabel(c, cfg.nameLabel) && c.names == [] && |c.id| < ShortIdLength
    ensures HasLabel(c, cfg.nameLabel) ==> ResolveServerName(c, cfg) == Some(Trim(c.labels[cfg.nameLabel]))
    ensures !HasLabel(c, cfg.nameLabel) && c.names != [] ==> ResolveServerName(c, cfg) == Some(ResolveHost(c))
    ensures !HasLabel(c, cfg.nameLabel) && c.names == [] && |c.id| >= ShortIdLength ==>
              ResolveServerName(c, cfg) == Some(ShortContainerId(c.id)) && |ShortContainerId(c.id)| == ShortIdLength
  {
  }

  /** The port label, when it is present, not blank and parses after trimming. */
  function PortLabelValue(c: Container, cfg: Config): Option<int> {
    if HasLabel(c, cfg.portLabel) then ParseInt(Trim(c.labels[cfg.portLabel])) else None
  }

  /** The port: a parsable port label wins; an unparsable or missing one falls through to the first
      declared container-side port when it is positive, and else to 25565. */
  function ResolvePort(c: Container, cfg: Config): int {
    match PortLabelValue(c, cfg)
    case Some(p) => p
    case None => if c.privatePorts != [] && c.privatePorts[0] > 0 then c.privatePorts[0] else DefaultPort
  }

  /** The precedence of the port sources: a parsable label, else a positive first container-side
      port, else 25565; a port taken from a fallback is always positive. */
  lemma PortPrecedence(c: Container, cfg: Config)
    ensures PortLabelValue(c, cfg).Some? ==> ResolvePort(c, cfg) == PortLabelValue(c, cfg).value
    ensures PortLabelValue(c, cfg).None? ==> ResolvePort(c, cfg) > 0
    ensures PortLabelValue(c, cfg).None? && c.privatePorts != [] && c.privatePorts[0] > 0 ==>
              ResolvePort(c, cfg) == c.privatePorts[0]
    ensures PortLabelValue(c, cfg).None? && (c.privatePorts == [] || c.privatePorts[0] <= 0) ==>
              ResolvePort(c, cfg) == DefaultPort
  {
  }

  /** Ascending by id under String.compareTo. */
  predicate SortedById(cs: seq<Container>) {
    forall i, j :: 0 <= i < j < |cs| ==> CompareTo(cs[i].id, cs[j].id) <= 0
  }

  /** Places x before the first element whose id is not smaller. */
  function InsertById(x: Container, cs: seq<Container>): (r: seq<Container>)
    ensures multiset(r) == multiset(cs) + multiset{x}
  {
    if cs == [] || CompareTo(x.id, cs[0].id) <= 0 then [x] + cs
    else
      assert cs == [cs[0]] + cs[1..];
      [cs[0]] + InsertById(x, cs[1..])
  }

  /** Every id in cs is at least id. */
  predicate AllAtLeast(id: string, cs: seq<Container>) {
    forall k :: 0 <= k < |cs| ==> CompareTo(id, cs[k].id) <= 0
  }

  /** A lower bound on the ids survives an insertion that respects it. */
  lemma {:induction false} InsertByIdAtLeast(id: string, x: Container, cs: seq<Container>)
    requires AllAtLeast(id, cs) && CompareTo(id, x.id) <= 0
    ensures AllAtLeast(id, InsertById(x, cs))
  {
    if cs != [] && CompareTo(x.id, cs[0].id) > 0 {
      InsertByIdAtLeast(id, x, cs[1..]);
      assert AllAtLeast(id, cs[1..]) by {
        forall k | 0 <= k < |cs[1..]| ensures CompareTo(id, cs[1..][k].id) <= 0 {
          assert cs[1..][k] == cs[k + 1];
        }
      }
    }
  }

  /** Inserting into a sorted list keeps it sorted. */
  lemma {:induction false} InsertByIdSorted(x: Container, cs: seq<Container>)
    requires SortedById(cs)
    ensures SortedById(InsertById(x, cs))
  {
    var r := InsertById(x, cs);
    if cs == [] {
    } else if CompareTo(x.id, cs[0].id) <= 0 {
      forall i, j | 0 <= i < j < |r| ensures CompareTo(r[i].id, r[j].id) <= 0 {
        if i == 0 && j > 1 {
          CompareToTransitive(x.id, cs[0].id, cs[j - 1].id);
        }
      }
    } else {
      var rest := InsertById(x, cs[1..]);
      assert SortedById(cs[1..]) by {
        forall i, j | 0 <= i < j < |cs[1..]| ensures CompareTo(cs[1..][i].id, cs[1..][j].id) <= 0 {
          assert cs[1..][i] == cs[i + 1] && cs[1..][j] == cs[j + 1];
        }
      }
      InsertByIdSorted(x, cs[1..]);
      CompareToAntisymmetric(x.id, cs[0].id);
      assert AllAtLeast(cs[0].id, cs[1..]) by {
        forall k | 0 <= k < |cs[1..]| ensures CompareTo(cs[0].id, cs[1..][k].id) <= 0 {
          assert cs[1..][k] == cs[k + 1];
        }
      }
      InsertByIdAtLeast(cs[0].id, x, cs[1..]);
      assert r == [cs[0]] + rest;
    }
  }

  /** List.sort with a comparator on the id: a sorted permutation of the scan. Equal ids keep their
      scan order, as in the stable `List.sort`. */
  function SortById(cs: seq<Container>): (r: seq<Container>)
    ensures multiset(r) == multiset(cs) && |r| == |cs|
    ensures SortedById(r)
  {
    if cs == [] then [] else
      assert cs == [cs[0]] + cs[1..];
      InsertByIdSorted(cs[0], SortById(cs[1..]));
      InsertById(cs[0], SortById(cs[1..]))
  }

  /** Sorting keeps exactly the containers of the scan. */
  lemma SortByIdMembers(cs: seq<Container>)
    ensures forall c :: c in SortById(cs) <==> c in cs
  {
    var r := SortById(cs);
    assert forall c :: c in cs <==> c in multiset(cs);
    assert forall c :: c in r <==> c in multiset(r);
  }

  /** The base names of a whole list, or None when one of them throws. */
  function ResolveAll(cs: seq<Container>, cfg: Config): (r: Option<seq<string>>)
    ensures r.Some? <==> forall c :: c in cs ==> ResolveServerName(c, cfg).Some?
    ensures r.Some? ==> |r.value| == |cs|
                        && forall i :: 0 <= i < |cs| ==> ResolveServerName(cs[i], cfg) == Some(r.value[i])
  {
    if cs == [] then Some([])
    else
      match (ResolveServerName(cs[0], cfg), ResolveAll(cs[1..], cfg))
      case (Some(b), Some(bs)) =>
        assert forall c :: c in cs ==> c == cs[0] || c in cs[1..];
        Some([b] + bs)
      case _ => None
  }
}
