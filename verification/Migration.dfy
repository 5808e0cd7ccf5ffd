/** Inventory differences of a Docker migration in tools/gate_c_docker_migration.py. */
module Migration {
  import opened Wrappers
  import opened Sorting
  import opened Distinct
  import opened HexDigests

  // ---------------------------------------------------------------------------------------------
  // Inventories

  datatype Container = Container(id: string, name: string, image: string)

  datatype Network = Network(id: string, name: string, driver: string)

  datatype Error = InvalidReference(value: string)

  /** The index of the first `|`, or the length. */
  function BarIndex(value: string): (n: nat)
    ensures n <= |value| && '|' !in value[..n] && (n < |value| ==> value[n] == '|')
  {
    if value == "" || value[0] == '|' then 0 else
      var n := 1 + BarIndex(value[1..]);
      assert value[..n] == [value[0]] + value[1..][..n - 1];
      n
  }

  /** `value.split("|", parts - 1)` */
  function SplitBars(value: string, parts: nat): seq<string>
    requires parts > 0
    decreases |value|
  {
    var n := BarIndex(value);
    if parts == 1 || n == |value| then [value] else [value[..n]] + SplitBars(value[n + 1..], parts - 1)
  }

  /** `_split_reference` succeeds. */
  predicate IsReference(value: string, parts: nat)
    requires parts > 0
  {
    |SplitBars(value, parts)| == parts
  }

  predicate AllReferences(reference: seq<string>, parts: nat)
    requires parts > 0
  {
    forall raw | raw in reference :: IsReference(raw, parts)
  }

  // ---------------------------------------------------------------------------------------------
  // What becomes of one reference entry, said over the current inventory

  datatype Kind =
    | AuthorizedCleanup
    | SameNameImageRecreated(currentId: string)
    | AllowedMissing(disposition: string)
    | SystemNetworkDifference(currentId: string)

  /** The last element of a name: the one that a dictionary by name keeps. */
  predicate IsLastNamed<T>(items: seq<T>, nameOf: T -> string, name: string, i: int) {
    0 <= i < |items| && nameOf(items[i]) == name && forall j | i < j < |items| :: nameOf(items[j]) != name
  }

  /** `f"{item['ID']}|{item['Names']}|{item['Image']}"` */
  function Exact(c: Container): string {
    c.id + "|" + c.name + "|" + c.image
  }

  function ContainerName(): Container -> string {
    (c: Container) => c.name
  }

  function NetworkName(): Network -> string {
    (n: Network) => n.name
  }

  /** The last container of the name runs the image. */
  ghost predicate Recreated(current: seq<Container>, name: string, image: string) {
    exists i :: IsLastNamed(current, ContainerName(), name, i) && current[i].image == image
  }

  predicate ContainerPresent(current: seq<Container>, raw: string) {
    exists c | c in current :: Exact(c) == raw
  }

  /** Nothing current accounts for the container, and its removal was not authorized. */
  ghost predicate ContainerUnexplained(current: seq<Container>, authorized: set<string>, raw: string) {
    var parts := SplitBars(raw, 3);
    && !ContainerPresent(current, raw)
    && |parts| == 3 && parts[0] !in authorized && !Recreated(current, parts[1], parts[2])
  }

  /** The kind of a container that is neither present nor unexplained. */
  ghost predicate IsContainerKind(current: seq<Container>, authorized: set<string>, raw: string, kind: Kind) {
    var parts := SplitBars(raw, 3);
    |parts| == 3 &&
    match kind
    case AuthorizedCleanup => parts[0] in authorized
    case SameNameImageRecreated(id) =>
      parts[0] !in authorized &&
      exists i ::
        IsLastNamed(current, ContainerName(), parts[1], i) && current[i].image == parts[2] && current[i].id == id
    case _ => false
  }

  predicate ImagePresent(currentIds: set<string>, raw: string) {
    SplitBars(raw, 2)[0] in currentIds
  }

  predicate ImageUnexplained(currentIds: set<string>, allowed: map<string, string>, raw: string) {
    !ImagePresent(currentIds, raw) && SplitBars(raw, 2)[0] !in allowed
  }

  predicate IsImageKind(allowed: map<string, string>, raw: string, kind: Kind) {
    var id := SplitBars(raw, 2)[0];
    id in allowed && kind == AllowedMissing(allowed[id])
  }

  /** `_prefix_matches` */
  predicate PrefixMatches(identifier: string, candidates: set<string>) {
    exists c | c in candidates :: c <= identifier || identifier <= c
  }

  /** The network at the index stands for the entry: last of its name, with its driver. */
  predicate StandsFor(current: seq<Network>, raw: string, i: int) {
    var parts := SplitBars(raw, 3);
    |parts| == 3 && IsLastNamed(current, NetworkName(), parts[1], i) && current[i].driver == parts[2]
  }

  /** The identifier moved on a system network. */
  predicate SystemDiffers(current: seq<Network>, system: set<string>, raw: string, i: int)
    requires StandsFor(current, raw, i)
  {
    SplitBars(raw, 3)[1] in system && current[i].id != SplitBars(raw, 3)[0]
  }

  ghost predicate NetworkPresent(current: seq<Network>, system: set<string>, raw: string) {
    exists i :: StandsFor(current, raw, i) && !SystemDiffers(current, system, raw, i)
  }

  /** No current network stands for the entry, and no authorized identifier extends or abbreviates its own. */
  ghost predicate NetworkUnexplained(current: seq<Network>, authorized: set<string>, raw: string) {
    && (forall i :: !StandsFor(current, raw, i))
    && !PrefixMatches(SplitBars(raw, 3)[0], authorized)
  }

  ghost predicate IsNetworkKind(
      current: seq<Network>, authorized: set<string>, system: set<string>, raw: string, kind: Kind)
  {
    match kind
    case AuthorizedCleanup =>
      (forall i :: !StandsFor(current, raw, i)) && PrefixMatches(SplitBars(raw, 3)[0], authorized)
    case SystemNetworkDifference(id) =>
      exists i :: StandsFor(current, raw, i) && SystemDiffers(current, system, raw, i) && current[i].id == id
    case _ => false
  }

  // ---------------------------------------------------------------------------------------------
  // Lists of differences

  datatype Entry = Entry(reference: string, kind: Kind)

  datatype Differences = Differences(classified: seq<Entry>, unexplained: seq<string>)

  /** The elements with the property, in order. */
  function Keep(reference: seq<string>, p: string -> bool): seq<string> {
    if reference == [] then [] else
      var last := reference[|reference| - 1];
      Keep(reference[..|reference| - 1], p) + if p(last) then [last] else []
  }

  function References(entries: seq<Entry>): (r: seq<string>)
    ensures |r| == |entries|
  {
    seq(|entries|, i requires 0 <= i < |entries| => entries[i].reference)
  }

  /** The lists hold, in order, the entries with the property `unexplained`, and those with neither property
      under their kind. */
  predicate AreDifferences(
      reference: seq<string>, d: Differences,
      present: string -> bool, unexplained: string -> bool, isKind: (string, Kind) -> bool)
  {
    && d.unexplained == Keep(reference, unexplained)
    && References(d.classified) == Keep(reference, raw => !present(raw) && !unexplained(raw))
    && forall e | e in d.classified :: isKind(e.reference, e.kind)
  }

  /** Every entry is exactly one of present, classified and unexplained, as often as it occurs. */
  predicate Partition(reference: seq<string>, d: Differences, present: string -> bool) {
    && multiset(reference) ==
       multiset(Keep(reference, present)) + multiset(References(d.classified)) + multiset(d.unexplained)
    && |reference| == |Keep(reference, present)| + |d.classified| + |d.unexplained|
    && forall raw | raw in reference ::
         && (present(raw) <==> raw !in References(d.classified) && raw !in d.unexplained)
         && !(raw in References(d.classified) && raw in d.unexplained)
  }

  lemma {:induction false} KeepMembers(reference: seq<string>, p: string -> bool)
    ensures forall raw :: raw in Keep(reference, p) <==> raw in reference && p(raw)
  {
    if reference != [] {
      var front, last := reference[..|reference| - 1], reference[|reference| - 1];
      assert reference == front + [last];
      KeepMembers(front, p);
    }
  }

  /** Three properties of which every string has exactly one split a list. */
  lemma {:induction false} KeepSplits(reference: seq<string>, p: string -> bool, q: string -> bool, r: string -> bool)
    requires forall raw ::
            (p(raw) || q(raw) || r(raw)) && !(p(raw) && q(raw)) && !(p(raw) && r(raw)) && !(q(raw) && r(raw))
    ensures multiset(reference) ==
            multiset(Keep(reference, p)) + multiset(Keep(reference, q)) + multiset(Keep(reference, r))
    ensures |reference| == |Keep(reference, p)| + |Keep(reference, q)| + |Keep(reference, r)|
  {
    if reference != [] {
      var front, last := reference[..|reference| - 1], reference[|reference| - 1];
      assert reference == front + [last];
      KeepSplits(front, p, q, r);
    }
  }

  lemma DifferencesPartition(
      reference: seq<string>, d: Differences,
      present: string -> bool, unexplained: string -> bool, isKind: (string, Kind) -> bool)
    requires AreDifferences(reference, d, present, unexplained, isKind)
    requires forall raw :: !(present(raw) && unexplained(raw))
    ensures Partition(reference, d, present)
  {
    var classified := raw => !present(raw) && !unexplained(raw);
    KeepSplits(reference, present, classified, unexplained);
    KeepMembers(reference, classified);
    KeepMembers(reference, unexplained);
  }

  /** One more entry goes to the list its properties say, or to none. */
  lemma DifferencesStep(
      reference: seq<string>, i: nat, d: Differences,
      present: string -> bool, unexplained: string -> bool, isKind: (string, Kind) -> bool)
    requires i < |reference| && AreDifferences(reference[..i], d, present, unexplained, isKind)
    ensures var raw := reference[i];
            var next := reference[..i + 1];
            if unexplained(raw) then
              present(raw)
              || AreDifferences(next, d.(unexplained := d.unexplained + [raw]), present, unexplained, isKind)
            else if present(raw) then AreDifferences(next, d, present, unexplained, isKind)
            else forall kind | isKind(raw, kind) ::
              AreDifferences(next, d.(classified := d.classified + [Entry(raw, kind)]), present, unexplained, isKind)
  {
    assert reference[..i + 1][..i] == reference[..i];
    forall kind: Kind
      ensures References(d.classified + [Entry(reference[i], kind)]) == References(d.classified) + [reference[i]]
    {
    }
  }

  lemma ReferencesStep(reference: seq<string>, i: nat, parts: nat)
    requires parts > 0 && i < |reference|
    ensures AllReferences(reference[..i + 1], parts) <==>
            AllReferences(reference[..i], parts) && IsReference(reference[i], parts)
    ensures AllReferences(reference, parts) ==> IsReference(reference[i], parts)
  {
    assert reference[..i + 1] == reference[..i] + [reference[i]];
  }

  // ---------------------------------------------------------------------------------------------
  // The dictionaries by name

  /** `{item[name]: item for item in items}` */
  function ByName<T>(items: seq<T>, nameOf: T -> string): map<string, T> {
    if items == [] then map[]
    else ByName(items[..|items| - 1], nameOf)[nameOf(items[|items| - 1]) := items[|items| - 1]]
  }

  /** It keeps the last element of each name. */
  lemma {:induction false} ByNameKeepsLast<T>(items: seq<T>, nameOf: T -> string, name: string)
    ensures name in ByName(items, nameOf) <==> exists i :: IsLastNamed(items, nameOf, name, i)
    ensures forall i | IsLastNamed(items, nameOf, name, i) :: ByName(items, nameOf)[name] == items[i]
  {
    if items != [] {
      var front, last := items[..|items| - 1], |items| - 1;
      ByNameKeepsLast(front, nameOf, name);
      if nameOf(items[last]) == name {
        assert IsLastNamed(items, nameOf, name, last);
      } else {
        forall i ensures IsLastNamed(items, nameOf, name, i) <==> IsLastNamed(front, nameOf, name, i) {
          assert forall j | 0 <= j < last :: front[j] == items[j];
          assert i == last ==> !IsLastNamed(items, nameOf, name, i);
        }
      }
    }
  }

  // ---------------------------------------------------------------------------------------------
  // The difference functions

  /** `_split_reference` */
  method SplitReference(value: string, parts: nat) returns (r: Result<seq<string>, Error>)
    requires parts > 0
    ensures r.Success? <==> IsReference(value, parts)
    ensures r.Success? ==> r.value == SplitBars(value, parts) && |r.value| == parts
    ensures r.Failure? ==> r.error == InvalidReference(value)
  {
    var result := SplitBars(value, parts);
    if |result| != parts {
      return Failure(InvalidReference(value));
    }
    return Success(result);
  }

  ghost predicate AreContainerDifferences(
      reference: seq<string>, d: Differences, current: seq<Container>, authorized: set<string>)
  {
    AreDifferences(reference, d, raw => ContainerPresent(current, raw),
                   raw => ContainerUnexplained(current, authorized, raw),
                   (raw, kind) => IsContainerKind(current, authorized, raw, kind))
  }

  /** `_container_differences` */
  method ContainerDifferences(reference: seq<string>, current: seq<Container>, authorized: set<string>)
    returns (r: Result<Differences, Error>)
    ensures r.Success? <==> AllReferences(reference, 3)
    ensures r.Success? ==> AreContainerDifferences(reference, r.value, current, authorized)
    ensures r.Success? ==> Partition(reference, r.value, raw => ContainerPresent(current, raw))
  {
    var exact := set c | c in current :: Exact(c);
    var byName := ByName(current, ContainerName());
    var entries: seq<Entry>, unexplained: seq<string> := [], [];
    for i := 0 to |reference|
      invariant AllReferences(reference[..i], 3)
      invariant AreContainerDifferences(reference[..i], Differences(entries, unexplained), current, authorized)
    {
      var raw := reference[i];
      ReferencesStep(reference, i, 3);
      var split := SplitReference(raw, 3);
      if split.Failure? {
        return Failure(split.error);
      }
      var parts := split.value;
      var id, name, image := parts[0], parts[1], parts[2];
      DifferencesStep(reference, i, Differences(entries, unexplained), raw => ContainerPresent(current, raw),
                      raw => ContainerUnexplained(current, authorized, raw),
                      (raw, kind) => IsContainerKind(current, authorized, raw, kind));
      ByNameKeepsLast(current, ContainerName(), name);
      assert raw in exact <==> ContainerPresent(current, raw);
      if raw in exact {
      } else if id in authorized {
        assert IsContainerKind(current, authorized, raw, AuthorizedCleanup);
        entries := entries + [Entry(raw, AuthorizedCleanup)];
      } else if name in byName && byName[name].image == image {
        assert IsContainerKind(current, authorized, raw, SameNameImageRecreated(byName[name].id));
        entries := entries + [Entry(raw, SameNameImageRecreated(byName[name].id))];
      } else {
        unexplained := unexplained + [raw];
      }
    }
    assert reference[..|reference|] == reference;
    r := Success(Differences(entries, unexplained));
    DifferencesPartition(reference, r.value, raw => ContainerPresent(current, raw),
                         raw => ContainerUnexplained(current, authorized, raw),
                         (raw, kind) => IsContainerKind(current, authorized, raw, kind));
  }

  predicate AreImageDifferences(
      reference: seq<string>, d: Differences, currentIds: set<string>, allowed: map<string, string>)
  {
    AreDifferences(reference, d, raw => ImagePresent(currentIds, raw),
                   raw => ImageUnexplained(currentIds, allowed, raw),
                   (raw, kind) => IsImageKind(allowed, raw, kind))
  }

  /** `_image_differences` */
  method ImageDifferences(reference: seq<string>, currentIds: set<string>, allowed: map<string, string>)
    returns (r: Result<Differences, Error>)
    ensures r.Success? <==> AllReferences(reference, 2)
    ensures r.Success? ==> AreImageDifferences(reference, r.value, currentIds, allowed)
    ensures r.Success? ==> Partition(reference, r.value, raw => ImagePresent(currentIds, raw))
  {
    var classified: seq<Entry>, unexplained: seq<string> := [], [];
    for i := 0 to |reference|
      invariant AllReferences(reference[..i], 2)
      invariant AreImageDifferences(reference[..i], Differences(classified, unexplained), currentIds, allowed)
    {
      var raw := reference[i];
      ReferencesStep(reference, i, 2);
      var split := SplitReference(raw, 2);
      if split.Failure? {
        return Failure(split.error);
      }
      var id := split.value[0];
      DifferencesStep(reference, i, Differences(classified, unexplained), raw => ImagePresent(currentIds, raw),
                      raw => ImageUnexplained(currentIds, allowed, raw),
                      (raw, kind) => IsImageKind(allowed, raw, kind));
      if id in currentIds {
      } else if id !in allowed {
        unexplained := unexplained + [raw];
      } else {
        classified := classified + [Entry(raw, AllowedMissing(allowed[id]))];
      }
    }
    assert reference[..|reference|] == reference;
    r := Success(Differences(classified, unexplained));
    DifferencesPartition(reference, r.value, raw => ImagePresent(currentIds, raw),
                         raw => ImageUnexplained(currentIds, allowed, raw),
                         (raw, kind) => IsImageKind(allowed, raw, kind));
  }

  ghost predicate AreNetworkDifferences(
      reference: seq<string>, d: Differences, current: seq<Network>, authorized: set<string>, system: set<string>)
  {
    AreDifferences(reference, d, raw => NetworkPresent(current, system, raw),
                   raw => NetworkUnexplained(current, authorized, raw),
                   (raw, kind) => IsNetworkKind(current, authorized, system, raw, kind))
  }

  /** What the dictionary holds decides whether a network stands for the entry. */
  lemma StandsForIff(current: seq<Network>, raw: string)
    requires IsReference(raw, 3)
    ensures var parts, byName := SplitBars(raw, 3), ByName(current, NetworkName());
            && ((exists i :: StandsFor(current, raw, i)) <==> parts[1] in byName && byName[parts[1]].driver == parts[2])
            && forall i | StandsFor(current, raw, i) :: current[i] == byName[parts[1]]
  {
    ByNameKeepsLast(current, NetworkName(), SplitBars(raw, 3)[1]);
    forall i | IsLastNamed(current, NetworkName(), SplitBars(raw, 3)[1], i)
      ensures StandsFor(current, raw, i) <==> current[i].driver == SplitBars(raw, 3)[2]
    {
    }
  }

  /** `_network_differences` */
  method NetworkDifferences(reference: seq<string>, current: seq<Network>, authorized: set<string>, system: set<string>)
    returns (r: Result<Differences, Error>)
    ensures r.Success? <==> AllReferences(reference, 3)
    ensures r.Success? ==> AreNetworkDifferences(reference, r.value, current, authorized, system)
    ensures r.Success? ==> Partition(reference, r.value, raw => NetworkPresent(current, system, raw))
  {
    var byName := ByName(current, NetworkName());
    var classified: seq<Entry>, unexplained: seq<string> := [], [];
    for i := 0 to |reference|
      invariant AllReferences(reference[..i], 3)
      invariant AreNetworkDifferences(reference[..i], Differences(classified, unexplained), current, authorized, system)
    {
      var raw := reference[i];
      ReferencesStep(reference, i, 3);
      var split := SplitReference(raw, 3);
      if split.Failure? {
        return Failure(split.error);
      }
      var parts := split.value;
      var id, name, driver := parts[0], parts[1], parts[2];
      DifferencesStep(reference, i, Differences(classified, unexplained), raw => NetworkPresent(current, system, raw),
                      raw => NetworkUnexplained(current, authorized, raw),
                      (raw, kind) => IsNetworkKind(current, authorized, system, raw, kind));
      StandsForIff(current, raw);
      if name in byName && byName[name].driver == driver {
        ghost var k :| StandsFor(current, raw, k);
        if name in system && byName[name].id != id {
          assert SystemDiffers(current, system, raw, k);
          assert IsNetworkKind(current, authorized, system, raw, SystemNetworkDifference(byName[name].id));
          classified := classified + [Entry(raw, SystemNetworkDifference(byName[name].id))];
        } else {
          assert !SystemDiffers(current, system, raw, k);
        }
      } else if PrefixMatches(id, authorized) {
        assert IsNetworkKind(current, authorized, system, raw, AuthorizedCleanup);
        classified := classified + [Entry(raw, AuthorizedCleanup)];
      } else {
        unexplained := unexplained + [raw];
      }
    }
    assert reference[..|reference|] == reference;
    r := Success(Differences(classified, unexplained));
    DifferencesPartition(reference, r.value, raw => NetworkPresent(current, system, raw),
                         raw => NetworkUnexplained(current, authorized, raw),
                         (raw, kind) => IsNetworkKind(current, authorized, system, raw, kind));
  }

  datatype VolumeDifferences = VolumeDifferences(authorizedCleanup: seq<string>, unexplained: seq<string>)

  predicate AreVolumeDifferences(
      reference: seq<string>, d: VolumeDifferences, current: set<string>, authorized: set<string>)
  {
    && StrictlySorted(d.authorizedCleanup) && StrictlySorted(d.unexplained)
    && (forall v | v in d.authorizedCleanup :: v in reference && v !in current && v in authorized)
    && (forall v | v in d.unexplained :: v in reference && v !in current && v !in authorized)
    && (forall v | v in reference && v !in current ::
          if v in authorized then v in d.authorizedCleanup else v in d.unexplained)
  }

  /** `_volume_differences` */
  method VolumesDiffer(reference: seq<string>, current: set<string>, authorized: set<string>)
    returns (d: VolumeDifferences)
    ensures AreVolumeDifferences(reference, d, current, authorized)
    ensures |d.authorizedCleanup| + |d.unexplained| + |Elements(reference) * current| == |Elements(reference)|
  {
    var missing := Elements(reference) - current;
    var cleanup := SortSet(missing * authorized);
    var unexplained := SortSet(missing - authorized);
    d := VolumeDifferences(cleanup, unexplained);
    ListingSize(cleanup, missing * authorized);
    ListingSize(unexplained, missing - authorized);
    assert Elements(reference) == missing * authorized + (missing - authorized) + Elements(reference) * current;
  }

  lemma ListingSize(list: seq<string>, elements: set<string>)
    requires StrictlySorted(list) && forall x :: x in list <==> x in elements
    ensures |list| == |elements|
  {
    ElementsCount(list);
    assert Elements(list) == elements;
  }

  // ---------------------------------------------------------------------------------------------
  // The verdict

  datatype Inventory = Inventory(
    containers: seq<string>, images: seq<string>, volumes: seq<string>, networks: seq<string>)

  datatype Current = Current(
    containers: seq<Container>, imageIds: set<string>, volumes: set<string>, networks: seq<Network>)

  datatype Cleanup = Cleanup(containers: set<string>, volumes: set<string>, networks: set<string>)

  datatype CopiedVolume = CopiedVolume(verification: string, contentSha256: string)

  datatype Policy = Policy(formalVolumes: seq<string>, allowedImages: map<string, string>, systemNetworks: set<string>)

  predicate FormalVolumeOk(name: string, current: Current, copied: map<string, CopiedVolume>) {
    && name in current.volumes && name in copied
    && copied[name].verification == "PASS" && IsSha256(copied[name].contentSha256)
  }

  /** Every entry of every kind is accounted for. */
  ghost predicate AllExplained(reference: Inventory, current: Current, cleanup: Cleanup, policy: Policy) {
    && (forall raw | raw in reference.containers :: !ContainerUnexplained(current.containers, cleanup.containers, raw))
    && (forall raw | raw in reference.images :: !ImageUnexplained(current.imageIds, policy.allowedImages, raw))
    && (forall v | v in reference.volumes :: v in current.volumes || v in cleanup.volumes)
    && (forall raw | raw in reference.networks :: !NetworkUnexplained(current.networks, cleanup.networks, raw))
  }

  /** The verdict of `validate`, given the verified receipts and the environment checks. */
  method Validate(
      reference: Inventory, current: Current, cleanup: Cleanup, policy: Policy,
      copied: map<string, CopiedVolume>, environmentPassed: bool)
    returns (r: Result<bool, Error>)
    ensures r.Success? <==>
            && AllReferences(reference.containers, 3) && AllReferences(reference.images, 2)
            && AllReferences(reference.networks, 3)
    ensures r.Success? ==> (r.value <==>
              && environmentPassed
              && (forall name | name in policy.formalVolumes ::
                    && name in current.volumes && name in copied
                    && copied[name].verification == "PASS" && IsSha256(copied[name].contentSha256))
              && AllExplained(reference, current, cleanup, policy))
  {
    var formalPassed := forall name | name in policy.formalVolumes :: FormalVolumeOk(name, current, copied);
    var containers := ContainerDifferences(reference.containers, current.containers, cleanup.containers);
    if containers.Failure? { return Failure(containers.error); }
    var images := ImageDifferences(reference.images, current.imageIds, policy.allowedImages);
    if images.Failure? { return Failure(images.error); }
    var volumes := VolumesDiffer(reference.volumes, current.volumes, cleanup.volumes);
    var networks := NetworkDifferences(reference.networks, current.networks, cleanup.networks, policy.systemNetworks);
    if networks.Failure? { return Failure(networks.error); }
    NoneKept(reference.containers, raw => ContainerUnexplained(current.containers, cleanup.containers, raw));
    NoneKept(reference.images, raw => ImageUnexplained(current.imageIds, policy.allowedImages, raw));
    NoneKept(reference.networks, raw => NetworkUnexplained(current.networks, cleanup.networks, raw));
    VolumesExplained(reference.volumes, current.volumes, cleanup.volumes, volumes.unexplained);
    var unexplained := containers.value.unexplained != [] || images.value.unexplained != []
      || volumes.unexplained != [] || networks.value.unexplained != [];
    return Success(formalPassed && !unexplained && environmentPassed);
  }

  lemma NoneKept(reference: seq<string>, p: string -> bool)
    ensures Keep(reference, p) == [] <==> forall raw | raw in reference :: !p(raw)
  {
    KeepMembers(reference, p);
    assert Keep(reference, p) != [] ==> Keep(reference, p)[0] in Keep(reference, p);
  }

  lemma VolumesExplained(reference: seq<string>, current: set<string>, authorized: set<string>, list: seq<string>)
    requires forall v | v in list :: v in reference && v !in current && v !in authorized
    requires forall v | v in reference && v !in current && v !in authorized :: v in list
    ensures list == [] <==> forall v | v in reference :: v in current || v in authorized
  {
    assert list != [] ==> list[0] in list;
  }

  // ---------------------------------------------------------------------------------------------
  // Authorizing more cleanup

  predicate Within(few: Cleanup, many: Cleanup) {
    few.containers <= many.containers && few.volumes <= many.volumes && few.networks <= many.networks
  }

  lemma {:induction false} KeepsFewer(reference: seq<string>, p: string -> bool, q: string -> bool)
    requires forall raw :: p(raw) ==> q(raw)
    ensures multiset(Keep(reference, p)) <= multiset(Keep(reference, q))
  {
    if reference != [] {
      KeepsFewer(reference[..|reference| - 1], p, q);
    }
  }

  lemma VolumesFewer(
      reference: seq<string>, before: VolumeDifferences, after: VolumeDifferences,
      current: set<string>, few: set<string>, many: set<string>)
    requires few <= many
    requires AreVolumeDifferences(reference, before, current, few)
    requires AreVolumeDifferences(reference, after, current, many)
    ensures multiset(after.unexplained) <= multiset(before.unexplained)
  {
    OnceEach(after.unexplained);
    forall v ensures multiset(after.unexplained)[v] <= multiset(before.unexplained)[v] {
      if v in multiset(after.unexplained) {
        assert v in after.unexplained;
        assert v in before.unexplained;
      }
    }
  }

  /** A larger cleanup receipt leaves no kind with more unexplained losses, and no validated migration
      unvalidated. */
  lemma AuthorizingMoreIsMonotone(
      reference: Inventory, current: Current, few: Cleanup, many: Cleanup, policy: Policy,
      before: Differences, after: Differences, networksBefore: Differences, networksAfter: Differences,
      volumesBefore: VolumeDifferences, volumesAfter: VolumeDifferences)
    requires Within(few, many)
    requires AreContainerDifferences(reference.containers, before, current.containers, few.containers)
    requires AreContainerDifferences(reference.containers, after, current.containers, many.containers)
    requires var system := policy.systemNetworks;
             && AreNetworkDifferences(reference.networks, networksBefore, current.networks, few.networks, system)
             && AreNetworkDifferences(reference.networks, networksAfter, current.networks, many.networks, system)
    requires AreVolumeDifferences(reference.volumes, volumesBefore, current.volumes, few.volumes)
    requires AreVolumeDifferences(reference.volumes, volumesAfter, current.volumes, many.volumes)
    ensures multiset(after.unexplained) <= multiset(before.unexplained)
    ensures multiset(networksAfter.unexplained) <= multiset(networksBefore.unexplained)
    ensures multiset(volumesAfter.unexplained) <= multiset(volumesBefore.unexplained)
    ensures AllExplained(reference, current, few, policy) ==> AllExplained(reference, current, many, policy)
  {
    KeepsFewer(reference.containers, raw => ContainerUnexplained(current.containers, many.containers, raw),
               raw => ContainerUnexplained(current.containers, few.containers, raw));
    VolumesFewer(reference.volumes, volumesBefore, volumesAfter, current.volumes, few.volumes, many.volumes);
    forall raw | NetworkUnexplained(current.networks, many.networks, raw)
      ensures NetworkUnexplained(current.networks, few.networks, raw)
    {
    }
    KeepsFewer(reference.networks, raw => NetworkUnexplained(current.networks, many.networks, raw),
               raw => NetworkUnexplained(current.networks, few.networks, raw));
  }

  /** Prefixes match both ways, so one empty authorized identifier leaves no network unexplained. */
  lemma EmptyIdentifierAuthorizesAll(current: seq<Network>, authorized: set<string>, raw: string)
    requires "" in authorized
    ensures !NetworkUnexplained(current, authorized, raw)
  {
    assert "" <= SplitBars(raw, 3)[0];
  }

  // ---------------------------------------------------------------------------------------------
  // Reading reference entries

  lemma {:induction false} FirstBar(before: string, after: string)
    requires '|' !in before
    ensures BarIndex(before + "|" + after) == |before|
  {
    var whole := before + "|" + after;
    if before != "" {
      assert whole[1..] == before[1..] + "|" + after;
      FirstBar(before[1..], after);
    } else {
      assert whole == "|" + after;
    }
  }

  /** An entry is cut at its first bars; the last part keeps any others. */
  lemma ThreeParts(id: string, name: string, rest: string)
    requires '|' !in id && '|' !in name
    ensures SplitBars(id + "|" + (name + "|" + rest), 3) == [id, name, rest]
  {
    var tail := name + "|" + rest;
    FirstBar(id, tail);
    assert (id + "|" + tail)[..|id|] == id && (id + "|" + tail)[|id| + 1..] == tail;
    TwoParts(name, rest);
  }

  lemma TwoParts(id: string, rest: string)
    requires '|' !in id
    ensures SplitBars(id + "|" + rest, 2) == [id, rest]
  {
    FirstBar(id, rest);
    assert (id + "|" + rest)[..|id|] == id && (id + "|" + rest)[|id| + 1..] == rest;
    assert SplitBars(rest, 1) == [rest];
  }

  /** A current container stands in the reference as its identifier, name and image. */
  lemma ExactParts(c: Container)
    requires '|' !in c.id && '|' !in c.name
    ensures SplitBars(Exact(c), 3) == [c.id, c.name, c.image]
  {
    ThreeParts(c.id, c.name, c.image);
    assert Exact(c) == c.id + "|" + (c.name + "|" + c.image);
  }

  /** Cleanup receipts may shorten identifiers or spell them out: either way the network counts as removed. */
  lemma ShortIdentifiersMatch(short: string, full: string, authorized: set<string>)
    requires short <= full
    ensures short in authorized ==> PrefixMatches(full, authorized)
    ensures full in authorized ==> PrefixMatches(short, authorized)
  {
  }
}
