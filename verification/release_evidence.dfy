/**
 Acceptance of a compatibility release's evidence: a policy and four signed records (authority
 activation, observation, consumer sign-off, deletion attestation), each checked against the ones
 before it.  What the whole chain of checks establishes is spread over the four verifiers: one time
 order across all records, windows covered by every source, and checksum links that leave no room to
 exchange a record.

 Instants are in microseconds.  A record that fails its shape, identifier, URI or signature checks never
 gets this far; the inventory's list entries may still be `Malformed`.
 */
module ReleaseEvidence {
  import opened Wrappers
  import opened Observations

  const SECOND := 1_000_000
  const CLOCK_SKEW := 300 * SECOND
  const MIN_WINDOW_SECONDS := 3600
  const MAX_WINDOW_SECONDS := 7 * 24 * 3600
  const CONSUMER_SURFACES: set<string> := {"api", "cli", "mcp", "sdk", "sse"}
  const QUERY_SURFACES: set<string> := {"api", "cli", "mcp", "sse"}
  const INVENTORY_SOURCES: set<string> := {"deployment_registry", "request_consumer_telemetry"}

  datatype Root = Root(authorityId: string, keyId: string, fingerprint: string)
  datatype Trust = Trust(epoch: int, governance: Root, observer: Root, owner: Root)

  /** The commit, tree and parent a deployment must come from. */
  datatype Source = Source(commit: string, tree: string, parent: string)

  /** `trust` is absent while the authorities are pending. */
  datatype Policy = Policy(
    releaseId: string, compatibility: Source, boundary: Source, deletion: Source, trust: Option<Trust>,
    querySurfaces: seq<string>, consumerSurfaces: seq<string>, inventorySources: seq<string>,
    minimumSeconds: int, maximumSeconds: int, maximumRecords: int, checksum: string)

  datatype Plan = Plan(source: Source, buildDigest: string, buildUri: string, environment: string)
  datatype Deployment = Deployment(plan: Plan, deploymentId: string, deployedAt: int)

  /** Evidence kept by content address, or locked until an instant. */
  datatype Evidence = ContentAddressed(checksum: string) | Locked(checksum: string, until: int)

  datatype Signer = Signer(id: string, fingerprint: string)

  /** What every record repeats of its policy and of the activation before it. */
  datatype Header = Header(releaseId: string, policyChecksum: string, epoch: int)

  datatype Activation = Activation(
    header: Header, active: bool, roots: Trust, environment: string, deployedAt: int,
    attestor: Signer, attestorKeyId: string, signedAt: int, evidence: Evidence)

  datatype InventorySource = InventorySource(id: string, startedAt: int, endedAt: int)

  datatype Surface = Surface(name: string, consumers: int, owner: string, disposition: string, flatReads: int)

  datatype InventorySurface = InventorySurface(surface: Surface, unknown: int, unowned: int, observedAt: int)

  datatype Inventory = Inventory(
    registryId: string, startedAt: int, endedAt: int,
    sources: seq<Raw<InventorySource>>, surfaces: seq<Raw<InventorySurface>>)

  datatype Observation = Observation(
    header: Header, passed: bool, activationChecksum: string, compatibility: Deployment,
    window: Window, durationSeconds: int,
    queries: seq<Raw<Query>>, checkpoints: seq<Raw<Checkpoint>>, projections: seq<Raw<Projection>>,
    inventory: Inventory, inventoryChecksum: string, evidence: Evidence, observer: Signer, signedAt: int)

  datatype Signoff = Signoff(
    header: Header, approved: bool, activationChecksum: string, compatibilityCommit: string, compatibilityBuild: string,
    plan: Plan, observationChecksum: string, inventoryChecksum: string, registryId: string, registryOwner: string,
    surfaces: seq<Raw<Surface>>, signer: Signer, signedAt: int)

  datatype Attestation = Attestation(
    header: Header, passed: bool, activationChecksum: string, observationChecksum: string, signoffChecksum: string,
    deletion: Deployment, attestor: Signer, signedAt: int, evidence: Evidence)

  /** The canonical-JSON checksum, one function per kind of record. */
  datatype Digests = Digests(
    policy: Policy -> string, activation: Activation -> string, observation: Observation -> string, signoff: Signoff -> string,
    attestation: Attestation -> string, inventory: Inventory -> string)

  /** Records with the checksum each carries. */
  datatype Bundle = Bundle(
    activation: Activation, activationChecksum: string,
    observation: Observation, observationChecksum: string,
    signoff: Signoff, signoffChecksum: string,
    attestation: Attestation, attestationChecksum: string)

  // ---------------------------------------------------------------- inventory and sign-off

  predicate Past(t: int, now: int) {
    t <= now + CLOCK_SKEW
  }

  predicate Covers(startedAt: int, endedAt: int, w: Window, signedAt: int) {
    startedAt <= w.startedAt && w.endedAt <= endedAt && startedAt <= endedAt <= signedAt
  }

  predicate SourceOk(raw: Raw<InventorySource>, w: Window, signedAt: int, now: int) {
    raw.Record? && raw.item.id in INVENTORY_SOURCES && Past(raw.item.startedAt, now) && Past(raw.item.endedAt, now)
    && Covers(raw.item.startedAt, raw.item.endedAt, w, signedAt)
  }

  predicate SurfaceOk(raw: Raw<InventorySurface>, w: Window) {
    raw.Record? && var s := raw.item;
    && s.surface.name in CONSUMER_SURFACES && s.surface.consumers >= 0
    && s.unknown == 0 && s.unowned == 0 && s.surface.flatReads == 0
    && s.surface.disposition == (if s.surface.consumers == 0 then "no_consumers" else "compatible")
    && InWindow(s.observedAt, w)
  }

  /** Exactly the required names appear, each once. */
  ghost predicate NamesOnce<T(!new)>(items: seq<Raw<T>>, name: T -> string, required: set<string>) {
    && (forall x :: x in items ==> x.Record? && name(x.item) in required)
    && DistinctNames(items, name)
    && (forall n :: n in required ==> exists x :: Record(x) in items && name(x) == n)
  }

  /** `byName` holds every entry under its name, and nothing else. */
  ghost predicate Indexed<T(!new)>(items: seq<Raw<T>>, name: T -> string, byName: map<string, T>) {
    && (forall n :: n in byName ==> name(byName[n]) == n && Record(byName[n]) in items)
    && (forall x :: Record(x) in items ==> name(x) in byName && byName[name(x)] == x)
  }

  ghost predicate DistinctNames<T>(items: seq<Raw<T>>, name: T -> string) {
    forall i, j :: 0 <= i < j < |items| && items[i].Record? && items[j].Record? ==>
      name(items[i].item) != name(items[j].item)
  }

  lemma {:induction false} IndexedSnoc<T(!new)>(items: seq<Raw<T>>, name: T -> string, byName: map<string, T>, x: T)
    requires Indexed(items, name, byName) && DistinctNames(items, name) && name(x) !in byName
    ensures Indexed(items + [Record(x)], name, byName[name(x) := x])
    ensures DistinctNames(items + [Record(x)], name)
  {
    forall i | 0 <= i < |items| && items[i].Record?
      ensures name(items[i].item) != name(x)
    {
      assert Record(items[i].item) in items;
    }
  }

  lemma {:induction false} RepeatedName<T(!new)>(items: seq<Raw<T>>, name: T -> string, byName: map<string, T>, i: nat)
    requires i < |items| && items[i].Record? && Indexed(items[..i], name, byName) && name(items[i].item) in byName
    ensures !DistinctNames(items, name)
  {
    var x := byName[name(items[i].item)];
    var j :| 0 <= j < i && items[..i][j] == Record(x);
    assert items[j] == Record(x);
  }

  lemma {:induction false} IndexedNames<T(!new)>(items: seq<Raw<T>>, name: T -> string, byName: map<string, T>, required: set<string>)
    requires Indexed(items, name, byName)
    requires forall x :: x in items ==> x.Record? && name(x.item) in required
    ensures byName.Keys == required <==> forall n :: n in required ==> exists x :: Record(x) in items && name(x) == n
  {
    if byName.Keys == required {
      forall n | n in required
        ensures exists x :: Record(x) in items && name(x) == n
      {
        assert Record(byName[n]) in items;
      }
    }
  }

  /** The shape both inventory loops and the sign-off loop share: check an entry, refuse a repeated
      name, remember the entry under its name, and require every name at the end. */
  method ByName<T(!new)>(items: seq<Raw<T>>, ok: Raw<T> -> bool, name: T -> string, required: set<string>)
    returns (accepted: bool, byName: map<string, T>)
    requires forall x :: ok(x) ==> x.Record? && name(x.item) in required
    ensures accepted <==> (forall x :: x in items ==> ok(x)) && NamesOnce(items, name, required)
    ensures accepted ==> byName.Keys == required && Indexed(items, name, byName)
  {
    byName := map[];
    for i := 0 to |items|
      invariant forall x :: x in items[..i] ==> ok(x)
      invariant Indexed(items[..i], name, byName) && DistinctNames(items[..i], name)
    {
      assert items[..i + 1] == items[..i] + [items[i]];
      if !ok(items[i]) {
        assert items[i] in items;
        return false, byName;
      }
      var item := items[i].item;
      if name(item) in byName {
        RepeatedName(items, name, byName, i);
        return false, byName;
      }
      IndexedSnoc(items[..i], name, byName, item);
      byName := byName[name(item) := item];
    }
    assert items[..|items|] == items;
    IndexedNames(items, name, byName, required);
    accepted := byName.Keys == required;
  }

  function SourceName(s: InventorySource): string { s.id }
  function InventoryName(s: InventorySurface): string { s.surface.name }
  function SurfaceName(s: Surface): string { s.name }

  ghost predicate InventoryOk(inv: Inventory, checksum: string, digests: Digests, w: Window, signedAt: int, now: int) {
    && Past(inv.startedAt, now) && Past(inv.endedAt, now) && Covers(inv.startedAt, inv.endedAt, w, signedAt)
    && (forall s :: s in inv.sources ==> SourceOk(s, w, signedAt, now))
    && NamesOnce(inv.sources, SourceName, INVENTORY_SOURCES)
    && (forall s :: s in inv.surfaces ==> SurfaceOk(s, w))
    && NamesOnce(inv.surfaces, InventoryName, CONSUMER_SURFACES)
    && checksum == digests.inventory(inv)
  }

  method VerifyConsumerInventory(inv: Inventory, checksum: string, digests: Digests, w: Window, signedAt: int, now: int)
    returns (ok: bool)
    ensures ok <==> InventoryOk(inv, checksum, digests, w, signedAt, now)
  {
    if !(Past(inv.startedAt, now) && Past(inv.endedAt, now) && Covers(inv.startedAt, inv.endedAt, w, signedAt)) {
      return false;
    }
    var sources, _ := ByName(inv.sources, s => SourceOk(s, w, signedAt, now), SourceName, INVENTORY_SOURCES);
    if !sources {
      return false;
    }
    var surfaces, _ := ByName(inv.surfaces, s => SurfaceOk(s, w), InventoryName, CONSUMER_SURFACES);
    ok := surfaces && checksum == digests.inventory(inv);
  }

  predicate SignedOk(raw: Raw<Surface>) {
    raw.Record? && raw.item.name in CONSUMER_SURFACES
  }

  ghost predicate Lists(inventory: seq<Raw<InventorySurface>>, s: Surface) {
    exists x :: Record(x) in inventory && x.surface == s
  }

  /** The owner signed for the very entries the inventory lists, in whatever order. */
  ghost predicate SignedSurfacesMatch(signed: seq<Raw<Surface>>, inventory: seq<Raw<InventorySurface>>) {
    && (forall x :: x in signed ==> SignedOk(x))
    && NamesOnce(signed, SurfaceName, CONSUMER_SURFACES)
    && (forall s :: Record(s) in signed <==> Lists(inventory, s))
  }

  predicate Maps(byName: map<string, Surface>, s: Surface) {
    s.name in byName && byName[s.name] == s
  }

  ghost predicate Normalized(inventory: seq<Raw<InventorySurface>>, byName: map<string, Surface>) {
    && (forall s: Surface :: Maps(byName, s) <==> Lists(inventory, s))
    && (forall n :: n in byName ==> byName[n].name == n)
  }

  method NormalizeInventory(inventory: seq<Raw<InventorySurface>>, required: set<string>) returns (byName: map<string, Surface>)
    requires NamesOnce(inventory, InventoryName, required)
    ensures byName.Keys == required
    ensures forall s: Surface :: Maps(byName, s) <==> Lists(inventory, s)
  {
    byName := map[];
    for i := 0 to |inventory|
      invariant Normalized(inventory[..i], byName)
    {
      assert inventory[i] in inventory && inventory[i].Record?;
      assert inventory[..i + 1] == inventory[..i] + [inventory[i]];
      NewName(inventory, i);
      NormalizedSnoc(inventory[..i], inventory[i].item, byName);
      byName := byName[inventory[i].item.surface.name := inventory[i].item.surface];
    }
    assert inventory[..|inventory|] == inventory;
    KeysAreRequired(inventory, required, byName);
  }

  lemma {:induction false} NewName(inventory: seq<Raw<InventorySurface>>, i: nat)
    requires DistinctNames(inventory, InventoryName) && i < |inventory| && inventory[i].Record?
    ensures forall s: Surface :: Lists(inventory[..i], s) ==> s.name != inventory[i].item.surface.name
  {
    forall s: Surface | Lists(inventory[..i], s)
      ensures s.name != inventory[i].item.surface.name
    {
      var x :| Record(x) in inventory[..i] && x.surface == s;
      var j :| 0 <= j < i && inventory[..i][j] == Record(x);
      assert inventory[j] == Record(x);
      assert InventoryName(inventory[j].item) != InventoryName(inventory[i].item);
    }
  }

  lemma {:induction false} NormalizedSnoc(inventory: seq<Raw<InventorySurface>>, x: InventorySurface, byName: map<string, Surface>)
    requires Normalized(inventory, byName)
    requires forall s: Surface :: Lists(inventory, s) ==> s.name != x.surface.name
    ensures Normalized(inventory + [Record(x)], byName[x.surface.name := x.surface])
  {
    var after := byName[x.surface.name := x.surface];
    forall s: Surface
      ensures Maps(after, s) <==> Lists(inventory + [Record(x)], s)
    {
      ListsSnoc(inventory, x, s);
      assert Maps(byName, s) <==> Lists(inventory, s);
    }
  }

  lemma {:induction false} ListsSnoc(inventory: seq<Raw<InventorySurface>>, x: InventorySurface, s: Surface)
    ensures Lists(inventory + [Record(x)], s) <==> Lists(inventory, s) || s == x.surface
  {
    assert Record(x) in inventory + [Record(x)];
    if Lists(inventory, s) {
      var y :| Record(y) in inventory && y.surface == s;
      assert Record(y) in inventory + [Record(x)];
    }
  }

  lemma {:induction false} KeysAreRequired(inventory: seq<Raw<InventorySurface>>, required: set<string>, byName: map<string, Surface>)
    requires NamesOnce(inventory, InventoryName, required)
    requires Normalized(inventory, byName)
    ensures byName.Keys == required
  {
    forall n
      ensures n in byName <==> n in required
    {
      if n in byName {
        assert Maps(byName, byName[n]);
        var x :| Record(x) in inventory && x.surface == byName[n];
        assert InventoryName(x) in required;
      }
      if n in required {
        var x :| Record(x) in inventory && InventoryName(x) == n;
        assert Lists(inventory, x.surface);
        assert Maps(byName, x.surface);
      }
    }
  }

  method MatchSurfaces(signed: seq<Raw<Surface>>, inventory: seq<Raw<InventorySurface>>) returns (ok: bool)
    requires NamesOnce(inventory, InventoryName, CONSUMER_SURFACES)
    ensures ok <==> SignedSurfacesMatch(signed, inventory)
  {
    var accepted, bySigned := ByName(signed, SignedOk, SurfaceName, CONSUMER_SURFACES);
    if !accepted {
      return false;
    }
    var byInventory := NormalizeInventory(inventory, CONSUMER_SURFACES);
    ok := bySigned == byInventory;
    MapsMatch(signed, inventory, CONSUMER_SURFACES, bySigned, byInventory);
  }

  lemma {:induction false} MapsMatch(signed: seq<Raw<Surface>>, inventory: seq<Raw<InventorySurface>>, required: set<string>,
                  bySigned: map<string, Surface>, byInventory: map<string, Surface>)
    requires NamesOnce(signed, SurfaceName, required)
    requires bySigned.Keys == byInventory.Keys == required
    requires Indexed(signed, SurfaceName, bySigned)
    requires forall s: Surface :: Maps(byInventory, s) <==> Lists(inventory, s)
    ensures bySigned == byInventory <==> forall s :: Record(s) in signed <==> Lists(inventory, s)
  {
    forall s: Surface
      ensures Record(s) in signed <==> Maps(bySigned, s)
    {
      if Maps(bySigned, s) { assert Record(bySigned[s.name]) in signed; }
      if Record(s) in signed { assert SurfaceName(s) in bySigned && bySigned[SurfaceName(s)] == s; }
    }
    if bySigned != byInventory {
      var n :| n in required && bySigned[n] != byInventory[n];
      var x :| Record(x) in signed && SurfaceName(x) == n;
      assert bySigned[n] == x && !Maps(byInventory, x);
    }
  }

  // ---------------------------------------------------------------- the four records

  /** What is compiled into the verifier: until an activation is compiled in, `trust` and the checksum of the
      active policy are absent. */
  datatype Pinned = Pinned(
    releaseId: string, compatibility: Source, boundary: Source, deletion: Source, trust: Option<Trust>,
    policyChecksum: Option<string>)

  /** Fingerprints of the public keys the signatures were checked with. */
  datatype Keys = Keys(governance: string, observer: string, owner: string)

  predicate Distinct3<T(==)>(a: T, b: T, c: T) {
    a != b && b != c && a != c
  }

  predicate RootsSeparate(t: Trust) {
    && Distinct3(t.governance.authorityId, t.observer.authorityId, t.owner.authorityId)
    && Distinct3(t.governance.keyId, t.observer.keyId, t.owner.keyId)
    && Distinct3(t.governance.fingerprint, t.observer.fingerprint, t.owner.fingerprint)
  }

  predicate IsHexadecimal(s: string, n: nat) {
    |s| == n && forall i :: 0 <= i < n ==> '0' <= s[i] <= '9' || 'a' <= s[i] <= 'f'
  }

  predicate IsChecksum(s: string) {
    |s| == 71 && s[..7] == "sha256:" && IsHexadecimal(s[7..], 64)
  }

  predicate IsReleaseDigest(s: string) {
    IsHexadecimal(s, 40) || IsHexadecimal(s, 64) || IsChecksum(s)
  }

  predicate IsAlphanumeric(c: char) {
    'a' <= c <= 'z' || 'A' <= c <= 'Z' || '0' <= c <= '9'
  }

  predicate IsIdentifier(s: string) {
    && 1 <= |s| <= 256 && IsAlphanumeric(s[0])
    && forall i :: 0 <= i < |s| ==> IsAlphanumeric(s[i]) || s[i] in "._:/@-"
  }

  predicate RootOk(root: Root) {
    IsIdentifier(root.authorityId) && IsIdentifier(root.keyId) && IsChecksum(root.fingerprint)
  }

  /** An activation that can be put in force: a positive epoch and three roots that share nothing. */
  predicate TrustOk(t: Trust) {
    t.epoch > 0 && RootOk(t.governance) && RootOk(t.observer) && RootOk(t.owner) && RootsSeparate(t)
  }

  predicate CommitOk(s: Source) {
    IsReleaseDigest(s.commit) && IsReleaseDigest(s.tree) && IsReleaseDigest(s.parent)
  }

  /** The commits a release is made of: the boundary follows the compatibility release and is not the
      deletion release itself. */
  predicate CommitsOk(compatibility: Source, boundary: Source, deletion: Source) {
    && CommitOk(compatibility) && CommitOk(boundary) && CommitOk(deletion)
    && boundary.parent == compatibility.commit && deletion.commit != boundary.commit
  }

  /** A list of exactly these texts, in any order, none twice. */
  predicate StrictSet(items: seq<string>, required: set<string>) {
    Distinct(items) && (set x | x in items) == required
  }

  /** The policy without its checksum field, as the checksum is computed of it. */
  function Unsummed(policy: Policy): Policy {
    policy.(checksum := "")
  }

  /** `_verify_policy` on a policy in force: what it repeats of the compiled pins, and a checksum that is both
      its own and the compiled one. */
  predicate PolicyOk(policy: Policy, pinned: Pinned, digests: Digests) {
    && policy.releaseId == pinned.releaseId && policy.compatibility == pinned.compatibility
    && policy.boundary == pinned.boundary && policy.deletion == pinned.deletion
    && CommitsOk(policy.compatibility, policy.boundary, policy.deletion)
    && StrictSet(policy.querySurfaces, QUERY_SURFACES)
    && StrictSet(policy.consumerSurfaces, CONSUMER_SURFACES)
    && StrictSet(policy.inventorySources, INVENTORY_SOURCES)
    && policy.minimumSeconds == MIN_WINDOW_SECONDS && policy.maximumSeconds == MAX_WINDOW_SECONDS
    && policy.maximumRecords == MAX_OBSERVATION_RECORDS
    && policy.trust.Some? && policy.trust == pinned.trust && TrustOk(policy.trust.value)
    && policy.checksum == digests.policy(Unsummed(policy)) && pinned.policyChecksum == Some(policy.checksum)
  }

  predicate KeysOk(t: Trust, keys: Keys) {
    && Distinct3(keys.governance, keys.observer, keys.owner)
    && keys.governance == t.governance.fingerprint && keys.observer == t.observer.fingerprint && keys.owner == t.owner.fingerprint
  }

  predicate AuthorityOk(policy: Policy, pinned: Pinned, keys: Keys, digests: Digests) {
    PolicyOk(policy, pinned, digests) && KeysOk(policy.trust.value, keys)
  }

  function HeaderOf(policy: Policy): Header
    requires policy.trust.Some?
  {
    Header(policy.releaseId, policy.checksum, policy.trust.value.epoch)
  }

  predicate Retained(e: Evidence, signedAt: int) {
    e.Locked? ==> e.until > signedAt
  }

  predicate ActivationOk(policy: Policy, keys: Keys, b: Bundle, digests: Digests, now: int)
    requires policy.trust.Some?
  {
    var a := b.activation;
    && a.active && a.header == HeaderOf(policy) && a.roots == policy.trust.value
    && b.activationChecksum == digests.activation(a)
    && Past(a.deployedAt, now)
    && a.attestor == Signer(policy.trust.value.governance.authorityId, keys.governance)
    && a.attestorKeyId == policy.trust.value.governance.keyId
    && Past(a.signedAt, now) && a.deployedAt <= a.signedAt && Retained(a.evidence, a.signedAt)
  }

  predicate ObservationHeadOk(policy: Policy, keys: Keys, b: Bundle, digests: Digests, now: int)
    requires policy.trust.Some?
  {
    var o := b.observation;
    && o.passed && o.header == HeaderOf(policy) && o.activationChecksum == b.activationChecksum
    && b.observationChecksum == digests.observation(o)
    && o.compatibility.plan.source == policy.compatibility && Past(o.compatibility.deployedAt, now)
    && Past(o.window.startedAt, now) && Past(o.window.endedAt, now)
    && o.window.startedAt < o.window.endedAt
    && o.window.endedAt - o.window.startedAt == o.durationSeconds * SECOND
    && policy.minimumSeconds <= o.durationSeconds <= policy.maximumSeconds
    && o.compatibility.deployedAt <= o.window.startedAt
    && b.activation.signedAt < o.window.startedAt
    && b.activation.environment == o.compatibility.plan.environment
    && o.observer == Signer(policy.trust.value.observer.authorityId, keys.observer)
    && Past(o.signedAt, now) && o.window.endedAt <= o.signedAt
  }

  ghost predicate ObservationOk(policy: Policy, keys: Keys, b: Bundle, digests: Digests, now: int)
    requires policy.trust.Some?
  {
    var o := b.observation;
    && ObservationHeadOk(policy, keys, b, digests, now)
    && Accepts(o.queries, o.checkpoints, o.projections, o.window, QUERY_SURFACES)
    && InventoryOk(o.inventory, o.inventoryChecksum, digests, o.window, o.signedAt, now)
    && Retained(o.evidence, o.signedAt)
  }

  predicate SignoffHeadOk(policy: Policy, b: Bundle, digests: Digests)
    requires policy.trust.Some?
  {
    var o, s := b.observation, b.signoff;
    && s.approved && b.signoffChecksum == digests.signoff(s)
    && s.header.releaseId == o.header.releaseId && s.header.policyChecksum == o.header.policyChecksum
    && s.header.epoch == o.header.epoch == policy.trust.value.epoch
    && s.activationChecksum == o.activationChecksum == b.activationChecksum
    && s.compatibilityCommit == o.compatibility.plan.source.commit == policy.compatibility.commit
    && s.compatibilityBuild == o.compatibility.plan.buildDigest
    && s.plan.source == policy.deletion
    && s.plan.environment == o.compatibility.plan.environment
    && s.plan.buildDigest != o.compatibility.plan.buildDigest
    && s.observationChecksum == b.observationChecksum
    && s.inventoryChecksum == o.inventoryChecksum && s.registryId == o.inventory.registryId
    && s.registryOwner == policy.trust.value.owner.authorityId
  }

  predicate SignoffSignerOk(keys: Keys, b: Bundle, now: int) {
    var o, s := b.observation, b.signoff;
    && s.signer == Signer(s.registryOwner, keys.owner)
    && s.signer.id != o.observer.id
    && Past(s.signedAt, now) && o.signedAt <= s.signedAt
  }

  ghost predicate SignoffOk(policy: Policy, keys: Keys, b: Bundle, digests: Digests, now: int)
    requires policy.trust.Some?
  {
    && SignoffHeadOk(policy, b, digests)
    && SignedSurfacesMatch(b.signoff.surfaces, b.observation.inventory.surfaces)
    && SignoffSignerOk(keys, b, now)
  }

  predicate AttestationOk(policy: Policy, keys: Keys, b: Bundle, digests: Digests, now: int) {
    var o, s, d := b.observation, b.signoff, b.attestation;
    && d.passed
    && d.header.releaseId == o.header.releaseId == s.header.releaseId
    && d.header.policyChecksum == o.header.policyChecksum == s.header.policyChecksum == policy.checksum
    && d.header.epoch == o.header.epoch == s.header.epoch
    && d.activationChecksum == o.activationChecksum == s.activationChecksum == b.activationChecksum
    && d.observationChecksum == b.observationChecksum && d.signoffChecksum == b.signoffChecksum
    && b.attestationChecksum == digests.attestation(d)
    && d.deletion.plan.source == policy.deletion && Past(d.deletion.deployedAt, now)
    && d.deletion.plan == s.plan
    && d.deletion.plan.environment == o.compatibility.plan.environment
    && d.deletion.deploymentId != o.compatibility.deploymentId
    && d.deletion.plan.buildDigest != o.compatibility.plan.buildDigest
    && s.signedAt <= d.deletion.deployedAt
    && d.attestor == Signer(o.observer.id, keys.observer)
    && Past(d.signedAt, now) && d.deletion.deployedAt <= d.signedAt && Retained(d.evidence, d.signedAt)
  }

  predicate StillRetained(b: Bundle) {
    Retained(b.activation.evidence, b.attestation.signedAt) && Retained(b.observation.evidence, b.attestation.signedAt)
  }

  ghost predicate AcceptsRelease(policy: Policy, pinned: Pinned, keys: Keys, b: Bundle, digests: Digests, now: int) {
    && AuthorityOk(policy, pinned, keys, digests)
    && ActivationOk(policy, keys, b, digests, now)
    && ObservationOk(policy, keys, b, digests, now)
    && SignoffOk(policy, keys, b, digests, now)
    && AttestationOk(policy, keys, b, digests, now)
    && StillRetained(b)
  }

  /** The record that was refused. */
  datatype Refusal = AtAuthority | AtActivation | AtObservation | AtSignoff | AtAttestation | AtRetention

  method VerifyObservationRecord(policy: Policy, keys: Keys, b: Bundle, digests: Digests, now: int) returns (ok: bool)
    requires policy.trust.Some?
    ensures ok <==> ObservationOk(policy, keys, b, digests, now)
  {
    if !ObservationHeadOk(policy, keys, b, digests, now) {
      return false;
    }
    var o := b.observation;
    var reason := VerifyObservations(o.queries, o.checkpoints, o.projections, o.window, QUERY_SURFACES);
    if reason.Some? {
      return false;
    }
    var inventory := VerifyConsumerInventory(o.inventory, o.inventoryChecksum, digests, o.window, o.signedAt, now);
    ok := inventory && Retained(o.evidence, o.signedAt);
  }

  method VerifyConsumerSignoff(policy: Policy, keys: Keys, b: Bundle, digests: Digests, now: int) returns (ok: bool)
    requires policy.trust.Some?
    requires NamesOnce(b.observation.inventory.surfaces, InventoryName, CONSUMER_SURFACES)
    ensures ok <==> SignoffOk(policy, keys, b, digests, now)
  {
    if !SignoffHeadOk(policy, b, digests) {
      return false;
    }
    var match_ := MatchSurfaces(b.signoff.surfaces, b.observation.inventory.surfaces);
    ok := match_ && SignoffSignerOk(keys, b, now);
  }

  method VerifyReleaseEvidence(policy: Policy, pinned: Pinned, keys: Keys, b: Bundle, digests: Digests, now: int)
    returns (refusal: Option<Refusal>)
    ensures refusal.None? <==> AcceptsRelease(policy, pinned, keys, b, digests, now)
    ensures refusal == Some(AtAuthority) <==> !AuthorityOk(policy, pinned, keys, digests)
    ensures refusal == Some(AtRetention) ==> !StillRetained(b)
  {
    if !AuthorityOk(policy, pinned, keys, digests) {
      return Some(AtAuthority);
    }
    if !ActivationOk(policy, keys, b, digests, now) {
      return Some(AtActivation);
    }
    var observation := VerifyObservationRecord(policy, keys, b, digests, now);
    if !observation {
      return Some(AtObservation);
    }
    var signoff := VerifyConsumerSignoff(policy, keys, b, digests, now);
    if !signoff {
      return Some(AtSignoff);
    }
    if !AttestationOk(policy, keys, b, digests, now) {
      return Some(AtAttestation);
    }
    refusal := if StillRetained(b) then None else Some(AtRetention);
  }

  // ---------------------------------------------------------------- what acceptance means

  /** The instants the four records name, in the order acceptance forces on them. */
  function Timeline(b: Bundle): seq<int> {
    [b.activation.deployedAt, b.activation.signedAt, b.observation.window.startedAt, b.observation.window.endedAt,
     b.observation.signedAt, b.signoff.signedAt, b.attestation.deletion.deployedAt, b.attestation.signedAt]
  }

  predicate InTimeOrder(t: seq<int>) {
    forall i, j :: 0 <= i < j < |t| ==> t[i] <= t[j]
  }

  lemma {:induction false} NeighboursInOrder(t: seq<int>)
    requires forall i :: 0 <= i < |t| - 1 ==> t[i] <= t[i + 1]
    ensures InTimeOrder(t)
  {
    if |t| > 1 {
      var front := t[..|t| - 1];
      NeighboursInOrder(front);
      forall i | 0 <= i < |t| - 1
        ensures t[i] <= t[|t| - 1]
      {
        assert front[i] <= front[|t| - 2] && t[|t| - 2] <= t[|t| - 2 + 1];
      }
      forall i, j | 0 <= i < j < |t|
        ensures t[i] <= t[j]
      {
        if j < |t| - 1 { assert front[i] <= front[j]; }
      }
    }
  }

  lemma {:induction false} AcceptedNeighbours(policy: Policy, pinned: Pinned, keys: Keys, b: Bundle, digests: Digests, now: int)
    requires AcceptsRelease(policy, pinned, keys, b, digests, now)
    ensures b.activation.deployedAt <= b.activation.signedAt < b.observation.window.startedAt
    ensures b.observation.window.startedAt < b.observation.window.endedAt <= b.observation.signedAt <= b.signoff.signedAt
    ensures b.signoff.signedAt <= b.attestation.deletion.deployedAt <= b.attestation.signedAt <= now + CLOCK_SKEW
    ensures b.observation.compatibility.deployedAt <= b.observation.window.startedAt
    ensures b.observation.window.endedAt - b.observation.window.startedAt >= MIN_WINDOW_SECONDS * SECOND
  {
    assert ObservationHeadOk(policy, keys, b, digests, now);
  }

  lemma {:induction false} LineInOrder(b: Bundle)
    requires b.activation.deployedAt <= b.activation.signedAt <= b.observation.window.startedAt
    requires b.observation.window.startedAt <= b.observation.window.endedAt <= b.observation.signedAt <= b.signoff.signedAt
    requires b.signoff.signedAt <= b.attestation.deletion.deployedAt <= b.attestation.signedAt
    ensures InTimeOrder(Timeline(b)) && forall t :: t in Timeline(b) ==> t <= b.attestation.signedAt
  {
    var line := Timeline(b);
    NeighboursInOrder(line);
    forall t | t in line
      ensures t <= line[7]
    {
      var i :| 0 <= i < |line| && line[i] == t;
    }
  }

  /** One transitive time order over all four records, strict where the window opens and closes, all of it
      in the past up to the clock skew. */
  lemma {:induction false} AcceptedTimeline(policy: Policy, pinned: Pinned, keys: Keys, b: Bundle, digests: Digests, now: int)
    requires AcceptsRelease(policy, pinned, keys, b, digests, now)
    ensures InTimeOrder(Timeline(b)) && b.attestation.signedAt <= now + CLOCK_SKEW
    ensures b.activation.signedAt < b.observation.window.startedAt < b.observation.window.endedAt
    ensures b.observation.compatibility.deployedAt <= b.observation.window.startedAt
    ensures b.observation.window.endedAt - b.observation.window.startedAt >= MIN_WINDOW_SECONDS * SECOND
  {
    AcceptedNeighbours(policy, pinned, keys, b, digests, now);
    LineInOrder(b);
  }

  /** Evidence kept under a lock is still locked at every instant the records name. */
  lemma {:induction false} AcceptedEvidenceOutlasts(policy: Policy, pinned: Pinned, keys: Keys, b: Bundle, digests: Digests, now: int, t: int)
    requires AcceptsRelease(policy, pinned, keys, b, digests, now) && t in Timeline(b)
    ensures Retained(b.activation.evidence, t) && Retained(b.observation.evidence, t) && Retained(b.attestation.evidence, t)
  {
    AcceptedNeighbours(policy, pinned, keys, b, digests, now);
    LineInOrder(b);
    assert StillRetained(b) && AttestationOk(policy, keys, b, digests, now);
  }

  /** The inventory and each of its required sources cover the whole window and end by the observer's
      signature, so before the deletion was deployed; and so do all observations. */
  lemma {:induction false} AcceptedWindowIsCovered(policy: Policy, pinned: Pinned, keys: Keys, b: Bundle, digests: Digests, now: int)
    requires AcceptsRelease(policy, pinned, keys, b, digests, now)
    ensures
      var o := b.observation;
      && Covers(o.inventory.startedAt, o.inventory.endedAt, o.window, o.signedAt)
      && (forall id :: id in INVENTORY_SOURCES ==>
            exists s :: Record(s) in o.inventory.sources && s.id == id
                        && s.startedAt <= o.window.startedAt && o.window.endedAt <= s.endedAt <= b.attestation.deletion.deployedAt)
    ensures forall q :: Record(q) in b.observation.queries ==>
              b.activation.signedAt < q.observedAt <= b.attestation.deletion.deployedAt
    ensures forall s :: Record(s) in b.observation.inventory.surfaces ==>
              b.activation.signedAt < s.observedAt <= b.attestation.deletion.deployedAt
  {
    var o := b.observation;
    AcceptedNeighbours(policy, pinned, keys, b, digests, now);
    assert ObservationOk(policy, keys, b, digests, now);
    forall id | id in INVENTORY_SOURCES
      ensures exists s :: Record(s) in o.inventory.sources && s.id == id
                          && s.startedAt <= o.window.startedAt && o.window.endedAt <= s.endedAt <= b.attestation.deletion.deployedAt
    {
      SourceCovers(o.inventory, o.inventoryChecksum, digests, o.window, o.signedAt, now, id);
    }
    ObservedInside(o.queries, o.inventory.surfaces, o.window);
  }

  lemma {:induction false} ObservedInside(queries: seq<Raw<Query>>, surfaces: seq<Raw<InventorySurface>>, w: Window)
    requires AcceptsQueries(queries, w, QUERY_SURFACES) && forall s :: s in surfaces ==> SurfaceOk(s, w)
    ensures forall q :: Record(q) in queries ==> w.startedAt <= q.observedAt <= w.endedAt
    ensures forall s :: Record(s) in surfaces ==> w.startedAt <= s.observedAt <= w.endedAt
  {
    forall q | Record(q) in queries ensures w.startedAt <= q.observedAt <= w.endedAt {
      assert QueryOk(Record(q), w, QUERY_SURFACES);
    }
    forall s | Record(s) in surfaces ensures w.startedAt <= s.observedAt <= w.endedAt {
      assert SurfaceOk(Record(s), w);
    }
  }

  lemma {:induction false} SourceCovers(
    inv: Inventory, checksum: string, digests: Digests, w: Window, signedAt: int, now: int, id: string)
    requires InventoryOk(inv, checksum, digests, w, signedAt, now) && id in INVENTORY_SOURCES
    ensures exists s :: Record(s) in inv.sources && s.id == id
                        && s.startedAt <= w.startedAt && w.endedAt <= s.endedAt <= signedAt
  {
    var s :| Record(s) in inv.sources && SourceName(s) == id;
    assert SourceOk(Record(s), w, signedAt, now);
  }

  /** Every required consumer surface was inventoried once inside the window with nothing left behind,
      and the owner signed for exactly that entry. */
  lemma {:induction false} AcceptedConsumersAreSigned(policy: Policy, pinned: Pinned, keys: Keys, b: Bundle, digests: Digests, now: int, name: string)
    requires AcceptsRelease(policy, pinned, keys, b, digests, now) && name in CONSUMER_SURFACES
    ensures exists x :: Record(x) in b.observation.inventory.surfaces && x.surface.name == name
                        && x.surface.flatReads == 0 && x.unknown == 0 && x.unowned == 0
                        && Record(x.surface) in b.signoff.surfaces
    ensures forall s, s' :: Record(s) in b.signoff.surfaces && Record(s') in b.signoff.surfaces && s.name == s'.name ==> s == s'
  {
    assert ObservationOk(policy, keys, b, digests, now) && SignoffOk(policy, keys, b, digests, now);
    OneListedSurface(b.observation.inventory.surfaces, b.observation.window, name);
    SignedOnce(b.signoff.surfaces, CONSUMER_SURFACES);
  }

  lemma {:induction false} OneListedSurface(surfaces: seq<Raw<InventorySurface>>, w: Window, name: string)
    requires forall s :: s in surfaces ==> SurfaceOk(s, w)
    requires exists x :: Record(x) in surfaces && InventoryName(x) == name
    ensures exists x :: Record(x) in surfaces && x.surface.name == name && x.surface.flatReads == 0
                        && x.unknown == 0 && x.unowned == 0 && Lists(surfaces, x.surface)
  {
    var x :| Record(x) in surfaces && InventoryName(x) == name;
    assert SurfaceOk(Record(x), w) && Lists(surfaces, x.surface);
  }

  lemma {:induction false} SignedOnce(signed: seq<Raw<Surface>>, required: set<string>)
    requires NamesOnce(signed, SurfaceName, required)
    ensures forall s, s' :: Record(s) in signed && Record(s') in signed && s.name == s'.name ==> s == s'
  {
    forall s, s' | Record(s) in signed && Record(s') in signed && s.name == s'.name
      ensures s == s'
    {
      var i :| 0 <= i < |signed| && signed[i] == Record(s);
      var j :| 0 <= j < |signed| && signed[j] == Record(s');
      assert SurfaceName(s) == SurfaceName(s');
    }
  }

  /** One environment, one epoch and one policy throughout; the deletion is another build and another
      deployment than the compatibility release, and no authority acts twice. */
  lemma {:induction false} AcceptedRecordsAgree(policy: Policy, pinned: Pinned, keys: Keys, b: Bundle, digests: Digests, now: int)
    requires AcceptsRelease(policy, pinned, keys, b, digests, now)
    ensures b.activation.header == b.observation.header == b.signoff.header == b.attestation.header == HeaderOf(policy)
    ensures b.activation.environment == b.observation.compatibility.plan.environment == b.signoff.plan.environment
            == b.attestation.deletion.plan.environment
    ensures b.attestation.deletion.plan == b.signoff.plan
    ensures b.attestation.deletion.deploymentId != b.observation.compatibility.deploymentId
    ensures b.attestation.deletion.plan.buildDigest != b.observation.compatibility.plan.buildDigest
    ensures Distinct3(b.activation.attestor, b.observation.observer, b.signoff.signer)
    ensures b.attestation.attestor == b.observation.observer
  {
    var t := policy.trust.value;
    assert Distinct3(t.governance.authorityId, t.observer.authorityId, t.owner.authorityId);
  }

  ghost predicate CollisionFree(digests: Digests) {
    && (forall x, y :: digests.policy(x) == digests.policy(y) ==> x == y)
    && (forall x, y :: digests.activation(x) == digests.activation(y) ==> x == y)
    && (forall x, y :: digests.observation(x) == digests.observation(y) ==> x == y)
    && (forall x, y :: digests.signoff(x) == digests.signoff(y) ==> x == y)
    && (forall x, y :: digests.attestation(x) == digests.attestation(y) ==> x == y)
  }

  /** The checksum links leave no room for an exchange: with checksums that do not collide, the checksum
      of the deletion attestation alone determines all four accepted records and the policy, whoever accepted
      them and when. */
  lemma {:induction false} AttestationFixesTheRecords(
    policy: Policy, pinned: Pinned, keys: Keys, b: Bundle, now: int,
    policy': Policy, pinned': Pinned, keys': Keys, b': Bundle, now': int, digests: Digests)
    requires CollisionFree(digests) && b.attestationChecksum == b'.attestationChecksum
    requires AcceptsRelease(policy, pinned, keys, b, digests, now)
    requires AcceptsRelease(policy', pinned', keys', b', digests, now')
    ensures b == b' && policy == policy'
  {
    assert b.attestation == b'.attestation;
    assert b.signoff == b'.signoff && b.observation == b'.observation;
    assert b.activation == b'.activation;
    SamePolicy(policy, policy', digests);
  }

  lemma {:induction false} SamePolicy(policy: Policy, policy': Policy, digests: Digests)
    requires CollisionFree(digests) && policy.checksum == policy'.checksum
    requires policy.checksum == digests.policy(Unsummed(policy)) && policy'.checksum == digests.policy(Unsummed(policy'))
    ensures policy == policy'
  {
    assert Unsummed(policy) == Unsummed(policy');
    assert policy == Unsummed(policy).(checksum := policy.checksum);
  }

  // ---------------------------------------------------------------- when acceptance is possible

  const SAMPLE_WINDOW := Window(1, 1 + MIN_WINDOW_SECONDS * SECOND)
  const SAMPLE_END := 1 + MIN_WINDOW_SECONDS * SECOND

  function SampleQuery(surface: string): Query {
    Query(surface, surface, "run", 1, 1, 1, true, false, true)
  }

  function SampleSurface(name: string): Surface {
    Surface(name, 0, "owner", "no_consumers", 0)
  }

  function SampleEntry(name: string): InventorySurface {
    InventorySurface(SampleSurface(name), 0, 0, 1)
  }

  function SampleSource(id: string): InventorySource {
    InventorySource(id, 0, SAMPLE_END)
  }

  const SURFACE_NAMES := ["api", "cli", "mcp", "sdk", "sse"]
  const QUERY_NAMES := ["api", "cli", "mcp", "sse"]
  const SOURCE_NAMES := ["deployment_registry", "request_consumer_telemetry"]

  function Made<T>(names: seq<string>, make: string -> T): seq<Raw<T>> {
    seq(|names|, i requires 0 <= i < |names| => Record(make(names[i])))
  }

  predicate Distinct(names: seq<string>) {
    forall i, j :: 0 <= i < j < |names| ==> names[i] != names[j]
  }

  lemma {:induction false} MadeMembers<T>(names: seq<string>, make: string -> T)
    ensures forall x :: x in Made(names, make) <==> exists n :: n in names && x == Record(make(n))
  {
    var items := Made(names, make);
    forall x
      ensures x in items <==> exists n :: n in names && x == Record(make(n))
    {
      if n :| n in names && x == Record(make(n)) {
        var i :| 0 <= i < |names| && names[i] == n;
        assert items[i] == x;
      }
      if x in items {
        var i :| 0 <= i < |items| && items[i] == x;
        assert names[i] in names;
      }
    }
  }

  /** A list made with one entry a name has every name once. */
  lemma {:induction false} MadeNamesOnce<T(!new)>(names: seq<string>, make: string -> T, name: T -> string, required: set<string>)
    requires Distinct(names) && (forall n :: n in names <==> n in required) && forall n :: name(make(n)) == n
    ensures NamesOnce(Made(names, make), name, required)
  {
    var items := Made(names, make);
    MadeMembers(names, make);
    assert forall i :: 0 <= i < |items| ==> items[i] == Record(make(names[i]));
    forall n | n in required
      ensures exists x :: Record(x) in items && name(x) == n
    {
      assert Record(make(n)) in items;
    }
  }

  lemma {:induction false} NamesAreDistinct()
    ensures Distinct(SURFACE_NAMES) && Distinct(QUERY_NAMES) && Distinct(SOURCE_NAMES)
  {
    assert "api"[0] == 'a' && "cli"[0] == 'c' && "mcp"[0] == 'm' && "sdk"[0] == 's' && "sse"[0] == 's';
    assert "sdk"[1] != "sse"[1];
    assert "deployment_registry"[0] != "request_consumer_telemetry"[0];
  }

  const SAMPLE_QUERIES: seq<Raw<Query>> := Made(QUERY_NAMES, SampleQuery)
  const SAMPLE_CHECKPOINTS: seq<Raw<Checkpoint>> := [Record(Checkpoint("cp", "run", 1, 1, 1, 1, false))]
  const SAMPLE_PROJECTIONS: seq<Raw<Projection>> := [Record(Projection("pr", "run", 1, 1, 1, 1, 0, 0))]
  const SAMPLE_SIGNED: seq<Raw<Surface>> := Made(SURFACE_NAMES, SampleSurface)
  const SAMPLE_INVENTORY :=
    Inventory("reg", 0, SAMPLE_END, Made(SOURCE_NAMES, SampleSource), Made(SURFACE_NAMES, SampleEntry))

  lemma {:induction false} SampleQueriesCover()
    ensures SurfacesCovered(SAMPLE_QUERIES, QUERY_SURFACES)
  {
    MadeMembers(QUERY_NAMES, SampleQuery);
    assert forall n :: n in QUERY_NAMES <==> n in QUERY_SURFACES;
    forall n | n in QUERY_NAMES
      ensures SampleQuery(n).surface == n && Record(SampleQuery(n)) in SAMPLE_QUERIES
    {
    }
  }

  lemma {:induction false} MadeDistinctIds<T>(names: seq<string>, make: string -> T, sample: T -> Sample)
    requires Distinct(names) && forall n :: sample(make(n)).id == n
    ensures DistinctIds(Made(names, make), sample)
  {
    var items := Made(names, make);
    assert forall i :: 0 <= i < |items| ==> items[i] == Record(make(names[i])) && sample(items[i].item).id == names[i];
  }

  lemma {:induction false} SampleQueryOk(name: string)
    requires name in QUERY_SURFACES
    ensures QueryOk(Record(SampleQuery(name)), SAMPLE_WINDOW, QUERY_SURFACES)
  {
  }

  lemma {:induction false} SampleListsAccepted()
    ensures AcceptsQueries(SAMPLE_QUERIES, SAMPLE_WINDOW, QUERY_SURFACES) && SurfacesCovered(SAMPLE_QUERIES, QUERY_SURFACES)
    ensures forall q :: Record(q) in SAMPLE_QUERIES ==> q.runId == "run" && q.sourceWatermark == 1
  {
    SampleQueriesCover();
    NamesAreDistinct();
    MadeMembers(QUERY_NAMES, SampleQuery);
    MadeDistinctIds(QUERY_NAMES, SampleQuery, QuerySample);
    forall x | x in SAMPLE_QUERIES
      ensures QueryOk(x, SAMPLE_WINDOW, QUERY_SURFACES)
    {
      var n :| n in QUERY_NAMES && x == Record(SampleQuery(n));
      assert SampleQuery(n).surface == n && x in SAMPLE_QUERIES;
      SampleQueryOk(n);
    }
  }

  lemma {:induction false} SampleQueryRuns(run: string)
    ensures HasRun(SAMPLE_QUERIES, QuerySample, run) <==> run == "run"
  {
    SampleListsAccepted();
    var q := SAMPLE_QUERIES[0].item;
    assert Record(q) in SAMPLE_QUERIES && QuerySample(q).run == "run";
  }

  lemma {:induction false} SampleRuns(run: string)
    ensures HasRun(SAMPLE_CHECKPOINTS, CheckpointSample, run) <==> run == "run"
    ensures HasRun(SAMPLE_PROJECTIONS, ProjectionSample, run) <==> run == "run"
  {
    var c, p := SAMPLE_CHECKPOINTS[0].item, SAMPLE_PROJECTIONS[0].item;
    assert Record(c) in SAMPLE_CHECKPOINTS && Record(p) in SAMPLE_PROJECTIONS;
  }

  lemma {:induction false} SampleObservationsAccepted()
    ensures Accepts(SAMPLE_QUERIES, SAMPLE_CHECKPOINTS, SAMPLE_PROJECTIONS, SAMPLE_WINDOW, QUERY_SURFACES)
  {
    var checkpoints, projections := SAMPLE_CHECKPOINTS, SAMPLE_PROJECTIONS;
    SampleListsAccepted();
    var p := projections[0].item;
    assert Record(p) in projections;
    forall run ensures HasRun(SAMPLE_QUERIES, QuerySample, run) <==> run == "run" { SampleQueryRuns(run); }
    forall run
      ensures HasRun(checkpoints, CheckpointSample, run) <==> run == "run"
      ensures HasRun(projections, ProjectionSample, run) <==> run == "run"
    {
      SampleRuns(run);
    }
    forall s: Sample | s.run == "run" && s.watermark == 1
      ensures Reached(projections, s)
    {
      assert p.runId == s.run && p.projectionWatermark >= s.watermark;
    }
  }

  lemma {:induction false} SampleSourcesOk()
    ensures NamesOnce(SAMPLE_INVENTORY.sources, SourceName, INVENTORY_SOURCES)
    ensures forall s :: s in SAMPLE_INVENTORY.sources ==> SourceOk(s, SAMPLE_WINDOW, SAMPLE_END, SAMPLE_END)
  {
    NamesAreDistinct();
    MadeMembers(SOURCE_NAMES, SampleSource);
    MadeNamesOnce(SOURCE_NAMES, SampleSource, SourceName, INVENTORY_SOURCES);
  }

  lemma {:induction false} SampleEntriesOk()
    ensures NamesOnce(SAMPLE_INVENTORY.surfaces, InventoryName, CONSUMER_SURFACES)
    ensures forall s :: s in SAMPLE_INVENTORY.surfaces ==> SurfaceOk(s, SAMPLE_WINDOW)
  {
    NamesAreDistinct();
    MadeMembers(SURFACE_NAMES, SampleEntry);
    MadeNamesOnce(SURFACE_NAMES, SampleEntry, InventoryName, CONSUMER_SURFACES);
  }

  lemma {:induction false} SampleInventoryAccepted(digests: Digests)
    ensures InventoryOk(SAMPLE_INVENTORY, digests.inventory(SAMPLE_INVENTORY), digests, SAMPLE_WINDOW, SAMPLE_END, SAMPLE_END)
  {
    SampleSourcesOk();
    SampleEntriesOk();
  }

  lemma {:induction false} SampleSurfacesMatch()
    ensures SignedSurfacesMatch(SAMPLE_SIGNED, SAMPLE_INVENTORY.surfaces)
  {
    NamesAreDistinct();
    MadeMembers(SURFACE_NAMES, SampleSurface);
    MadeMembers(SURFACE_NAMES, SampleEntry);
    MadeNamesOnce(SURFACE_NAMES, SampleSurface, SurfaceName, CONSUMER_SURFACES);
    forall s
      ensures Record(s) in SAMPLE_SIGNED <==> Lists(SAMPLE_INVENTORY.surfaces, s)
    {
      if Record(s) in SAMPLE_SIGNED {
        var n :| n in SURFACE_NAMES && s == SampleSurface(n);
        assert Record(SampleEntry(n)) in SAMPLE_INVENTORY.surfaces;
      }
    }
  }

  /** The policy of the compiled pins that lists its required surfaces and sources like this. */
  function PinnedPolicy(pinned: Pinned, queries: seq<string>, consumers: seq<string>, sources: seq<string>): Policy {
    Policy(pinned.releaseId, pinned.compatibility, pinned.boundary, pinned.deletion, pinned.trust, queries, consumers, sources,
           MIN_WINDOW_SECONDS, MAX_WINDOW_SECONDS, MAX_OBSERVATION_RECORDS, "")
  }

  /** The compiled checksum is that of a policy with the compiled pins, in some order of its lists. */
  ghost predicate ChecksumCompiled(pinned: Pinned, digests: Digests) {
    exists queries, consumers, sources ::
      && StrictSet(queries, QUERY_SURFACES) && StrictSet(consumers, CONSUMER_SURFACES) && StrictSet(sources, INVENTORY_SOURCES)
      && pinned.policyChecksum == Some(digests.policy(PinnedPolicy(pinned, queries, consumers, sources)))
  }

  function SampleActivation(header: Header, t: Trust): Activation {
    Activation(header, true, t, "env", 0, Signer(t.governance.authorityId, t.governance.fingerprint), t.governance.keyId, 0,
               ContentAddressed("x"))
  }

  function SampleObservation(header: Header, t: Trust, compatibility: Source, activation: string, inventory: string): Observation {
    Observation(header, true, activation, Deployment(Plan(compatibility, "cb", "cu", "env"), "c1", 0),
                SAMPLE_WINDOW, MIN_WINDOW_SECONDS, SAMPLE_QUERIES, SAMPLE_CHECKPOINTS, SAMPLE_PROJECTIONS,
                SAMPLE_INVENTORY, inventory, ContentAddressed("x"), Signer(t.observer.authorityId, t.observer.fingerprint), SAMPLE_END)
  }

  function SampleSignoff(header: Header, t: Trust, commit: string, deletion: Plan, activation: string, observation: string, inventory: string)
    : Signoff
  {
    Signoff(header, true, activation, commit, "cb", deletion, observation, inventory, "reg", t.owner.authorityId, SAMPLE_SIGNED,
            Signer(t.owner.authorityId, t.owner.fingerprint), SAMPLE_END)
  }

  /** Evidence for any policy in force and any digests: each checksum is computed from its record. */
  function SampleBundle(policy: Policy, digests: Digests): Bundle
    requires policy.trust.Some?
  {
    var t := policy.trust.value;
    var header := HeaderOf(policy);
    var deletion := Plan(policy.deletion, "db", "du", "env");
    var inventory := digests.inventory(SAMPLE_INVENTORY);
    var activation := SampleActivation(header, t);
    var a := digests.activation(activation);
    var observation := SampleObservation(header, t, policy.compatibility, a, inventory);
    var o := digests.observation(observation);
    var signoff := SampleSignoff(header, t, policy.compatibility.commit, deletion, a, o, inventory);
    var s := digests.signoff(signoff);
    var attestation := Attestation(header, true, a, o, s, Deployment(deletion, "d1", SAMPLE_END),
                                   Signer(t.observer.authorityId, t.observer.fingerprint), SAMPLE_END, ContentAddressed("x"));
    Bundle(activation, a, observation, o, signoff, s, attestation, digests.attestation(attestation))
  }

  function KeysOf(t: Trust): Keys {
    Keys(t.governance.fingerprint, t.observer.fingerprint, t.owner.fingerprint)
  }

  lemma {:induction false} SampleRecordsOk(policy: Policy, digests: Digests)
    requires policy.trust.Some? && TrustOk(policy.trust.value)
    requires policy.minimumSeconds == MIN_WINDOW_SECONDS && policy.maximumSeconds == MAX_WINDOW_SECONDS
    ensures
      var keys, b := KeysOf(policy.trust.value), SampleBundle(policy, digests);
      && ActivationOk(policy, keys, b, digests, SAMPLE_END) && ObservationHeadOk(policy, keys, b, digests, SAMPLE_END)
      && SignoffHeadOk(policy, b, digests) && SignoffSignerOk(keys, b, SAMPLE_END)
      && AttestationOk(policy, keys, b, digests, SAMPLE_END) && StillRetained(b)
  {
  }

  lemma {:induction false} SampleIsAccepted(policy: Policy, pinned: Pinned, digests: Digests)
    requires PolicyOk(policy, pinned, digests)
    ensures AcceptsRelease(policy, pinned, KeysOf(policy.trust.value), SampleBundle(policy, digests), digests, SAMPLE_END)
  {
    SampleObservationsAccepted();
    SampleInventoryAccepted(digests);
    SampleSurfacesMatch();
    SampleRecordsOk(policy, digests);
  }

  /** Some policy passes exactly when the pins are in order and the compiled checksum is one of theirs. */
  lemma {:induction false} SomePolicyIsOkIff(pinned: Pinned, digests: Digests)
    ensures (exists policy :: PolicyOk(policy, pinned, digests)) <==>
            && CommitsOk(pinned.compatibility, pinned.boundary, pinned.deletion)
            && pinned.trust.Some? && TrustOk(pinned.trust.value)
            && ChecksumCompiled(pinned, digests)
  {
    if policy :| PolicyOk(policy, pinned, digests) {
      assert Unsummed(policy) == PinnedPolicy(pinned, policy.querySurfaces, policy.consumerSurfaces, policy.inventorySources);
    }
    if CommitsOk(pinned.compatibility, pinned.boundary, pinned.deletion) && pinned.trust.Some? && TrustOk(pinned.trust.value)
       && ChecksumCompiled(pinned, digests) {
      var q, c, s :| StrictSet(q, QUERY_SURFACES) && StrictSet(c, CONSUMER_SURFACES) && StrictSet(s, INVENTORY_SOURCES)
                     && pinned.policyChecksum == Some(digests.policy(PinnedPolicy(pinned, q, c, s)));
      var policy := PinnedPolicy(pinned, q, c, s).(checksum := pinned.policyChecksum.value);
      assert Unsummed(policy) == PinnedPolicy(pinned, q, c, s);
      assert PolicyOk(policy, pinned, digests);
    }
  }

  /** Whatever the digests, collision-free ones included, some evidence is accepted exactly when the compiled
      commits are in order, an activation is compiled in with a positive epoch and three separate roots, and
      so is the checksum of a policy carrying these pins.  A missing or stale checksum refuses everything. */
  lemma {:induction false} AcceptanceIsPossibleIff(pinned: Pinned, digests: Digests)
    ensures (exists policy, keys, b, now :: AcceptsRelease(policy, pinned, keys, b, digests, now)) <==>
            && CommitsOk(pinned.compatibility, pinned.boundary, pinned.deletion)
            && pinned.trust.Some? && TrustOk(pinned.trust.value)
            && ChecksumCompiled(pinned, digests)
  {
    SomePolicyIsOkIff(pinned, digests);
    if policy :| PolicyOk(policy, pinned, digests) {
      SampleIsAccepted(policy, pinned, digests);
    }
  }
}
