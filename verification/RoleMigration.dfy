/** `migrate-argo-role`: compute the ownership patch, apply it atomically, and check the server's answer. */
module RoleMigration {
  import opened Wrappers
  import opened Ownership
  import opened OwnershipMatch

  datatype Rule = Rule(apiGroups: seq<string>, resources: seq<string>, resourceNames: seq<string>, verbs: seq<string>)

  /** A Role; `rest` is all other content. */
  datatype Role = Role(apiVersion: string, kind: string, namespace: string, name: string, uid: string,
                       resourceVersion: string, deleting: bool, labels: map<string, string>,
                       annotations: map<string, string>, rules: seq<Rule>, managedFields: seq<Entry>, rest: string)

  datatype Target = Target(namespace: string, name: string, release: string, releaseNamespace: string,
                           credentialedSA: string, profile: string)

  const RBAC_V1 := "rbac.authorization.k8s.io/v1"
  const NONROOT := "nonroot-static-v1"

  function Core(resource: string, names: seq<string>, verbs: seq<string>): Rule { Rule([""], [resource], names, verbs) }

  /** The reviewed rules, the only ones whose ownership may be moved. */
  function ExpectedRules(spec: Target): seq<Rule> {
    (if spec.profile == NONROOT
     then [Core("configmaps", ["oberth-argo-nr-5f121f7f1f5ef468eb2208b1cf7e911746c8cb6173c1d24e"], ["get"])]
     else []) +
    [Rule(["argoproj.io"], ["workflows"], [], ["create", "get", "list", "watch", "delete"]),
     Core("persistentvolumeclaims", [], ["create", "get", "list", "update", "delete"]),
     Core("pods", [], ["create", "get", "list", "watch", "delete"]),
     Core("pods/exec", [], ["create"]),
     Core("pods/log", [], ["get"]),
     Core("serviceaccounts/token", [spec.credentialedSA], ["create"]),
     Core("serviceaccounts", [], ["get"])]
  }

  predicate Has(m: map<string, string>, key: string, value: string) { key in m && m[key] == value }

  predicate ValidTarget(spec: Target) {
    && spec.namespace != "" && spec.name != "" && spec.release != "" && spec.releaseNamespace != ""
    && spec.credentialedSA != "" && (spec.profile == "" || spec.profile == NONROOT)
  }

  /** The Role is the named one, alive, owned by the named release, with the reviewed rules. */
  predicate Eligible(role: Role, spec: Target) {
    && ValidTarget(spec)
    && role.apiVersion == RBAC_V1 && role.kind == "Role" && role.namespace == spec.namespace && role.name == spec.name
    && role.uid != "" && role.resourceVersion != "" && !role.deleting
    && Has(role.labels, "app.kubernetes.io/managed-by", "Helm")
    && Has(role.annotations, "meta.helm.sh/release-name", spec.release)
    && Has(role.annotations, "meta.helm.sh/release-namespace", spec.releaseNamespace)
    && role.rules == ExpectedRules(spec)
  }

  datatype Plan = Stop | Nothing | Move(kept: seq<Entry>)

  function PlanFor(role: Role, spec: Target): Plan {
    if !Eligible(role, spec) then Stop
    else match Transfer(role.managedFields, role.apiVersion)
         case Refuse(_) => Stop
         case NoPatch => Nothing
         case Replace(kept) => Move(kept)
  }

  /** The Role names its target and carries exactly the reviewed rules. */
  predicate IsTarget(role: Role, spec: Target) {
    && role.apiVersion == "rbac.authorization.k8s.io/v1" && role.kind == "Role" && !role.deleting
    && role.namespace == spec.namespace != "" && role.name == spec.name != "" && role.uid != "" && role.resourceVersion != ""
    && "app.kubernetes.io/managed-by" in role.labels && role.labels["app.kubernetes.io/managed-by"] == "Helm"
    && "meta.helm.sh/release-name" in role.annotations
    && role.annotations["meta.helm.sh/release-name"] == spec.release != ""
    && "meta.helm.sh/release-namespace" in role.annotations
    && role.annotations["meta.helm.sh/release-namespace"] == spec.releaseNamespace != ""
    && spec.credentialedSA != "" && (spec.profile == "" || spec.profile == "nonroot-static-v1")
    && role.rules == ExpectedRules(spec)
  }

  /** The reviewed rules, one by one. */
  lemma ReviewedRules(spec: Target)
    ensures var rules := ExpectedRules(spec);
            var base := if spec.profile == "nonroot-static-v1" then 1 else 0;
            && |rules| == base + 7
            && (base == 1 ==>
                  rules[0] == Rule([""], ["configmaps"], ["oberth-argo-nr-5f121f7f1f5ef468eb2208b1cf7e911746c8cb6173c1d24e"], ["get"]))
            && rules[base] == Rule(["argoproj.io"], ["workflows"], [], ["create", "get", "list", "watch", "delete"])
            && rules[base + 1] == Rule([""], ["persistentvolumeclaims"], [], ["create", "get", "list", "update", "delete"])
            && rules[base + 2] == Rule([""], ["pods"], [], ["create", "get", "list", "watch", "delete"])
            && rules[base + 3] == Rule([""], ["pods/exec"], [], ["create"])
            && rules[base + 4] == Rule([""], ["pods/log"], [], ["get"])
            && rules[base + 5] == Rule([""], ["serviceaccounts/token"], [spec.credentialedSA], ["create"])
            && rules[base + 6] == Rule([""], ["serviceaccounts"], [], ["get"])
  {
  }

  lemma EligibleIff(role: Role, spec: Target)
    ensures Eligible(role, spec) <==> IsTarget(role, spec)
  {
    hide ExpectedRules;
  }

  /**
   `migrationPatch`: one pass over the entries, then the grant to Helm.  It stops
   exactly unless the Role is the target with the reviewed rules and the entries
   can be handled; it moves ownership exactly if someone besides Helm owns the rules.
   */
  method MigrationPatch(role: Role, spec: Target) returns (plan: Plan)
    ensures plan == PlanFor(role, spec)
    ensures !plan.Stop? <==>
            IsTarget(role, spec) && AllAcceptable(role.managedFields, role.apiVersion) && SomeOwner(role.managedFields)
    ensures plan.Move? <==>
            && IsTarget(role, spec) && AllAcceptable(role.managedFields, role.apiVersion)
            && OtherOwner(role.managedFields, role.apiVersion)
  {
    EligibleIff(role, spec);
    TransferCases(role.managedFields, role.apiVersion);
    hide Eligible, IsTarget, AllAcceptable, SomeOwner, OtherOwner;
    if !Eligible(role, spec) { return Stop; }
    ScanSound(role.managedFields, role.apiVersion);
    var st := ScanEntries(role.managedFields, role.apiVersion);
    if st.Bad? || st.owners == 0 { return Stop; }
    if !st.changes { return Nothing; }
    return Move(GrantHelm(st.kept, st.helm, role.apiVersion));
  }

  /** The loop over the entries: build the kept ones, find Helm's, count the owners. */
  method ScanEntries(entries: seq<Entry>, api: string) returns (st: Scan)
    ensures st.Bad? == ScanAll(entries, api).Bad? && (st.Good? ==> st == ScanAll(entries, api))
  {
    hide HelmApply, Reviewed, Decode, With;
    var helm, owners, changes, kept: seq<Entry> := -1, 0, false, [];
    for i := 0 to |entries|
      invariant owners >= 0 && ScanAll(entries[..i], api) == Good(kept, helm, owners, changes)
    {
      assert entries[..i + 1][..i] == entries[..i];
      var e := entries[i];
      var decoded := Decode(e);
      if decoded.None? { ScanStops(entries, i + 1, api); return Bad(Unrecognized); }
      var fields, helmApply := decoded.value, HelmApply(e, api);
      if RULES in fields {
        if fields[RULES] != ATOMIC || !Reviewed(e, api) { ScanStops(entries, i + 1, api); return Bad(Unreviewed); }
        owners := owners + 1;
        if !helmApply {
          changes := true;
          fields := fields - {RULES};
          if fields == map[] { continue; }
          e := With(e, fields);
        }
      }
      if helmApply {
        if helm >= 0 { ScanStops(entries, i + 1, api); return Bad(DuplicateHelm); }
        helm := |kept|;
      }
      kept := kept + [e];
    }
    assert entries[..|entries|] == entries;
    return Good(kept, helm, owners, changes);
  }

  /** A refused prefix refuses the whole. */
  lemma {:induction false} ScanStops(entries: seq<Entry>, i: nat, api: string)
    requires i <= |entries| && ScanAll(entries[..i], api).Bad?
    ensures ScanAll(entries, api).Bad?
    decreases |entries| - i
  {
    if i == |entries| {
      assert entries[..i] == entries;
    } else {
      assert entries[..i + 1][..i] == entries[..i];
      ScanStops(entries, i + 1, api);
    }
  }

  // ---------------------------------------------------------------- the server's side

  /** A JSON patch with preconditions: it applies to exactly the Role that was read. */
  function Apply(current: Role, read: Role, kept: seq<Entry>): Option<Role> {
    if current.uid == read.uid && current.resourceVersion == read.resourceVersion &&
       current.rules == read.rules && current.managedFields == read.managedFields
    then Some(current.(managedFields := kept)) else None
  }

  /** Everything but the version and the ownership. */
  function Content(role: Role): Role { role.(resourceVersion := "", managedFields := []) }

  datatype Verdict = Failed | Unchanged | Transferred

  /** What an answer must satisfy to count as the transfer. */
  ghost predicate Confirmed(role: Role, spec: Target, answer: Option<Role>) {
    && PlanFor(role, spec).Move? && answer.Some?
    && Content(answer.value) == Content(role) && answer.value.resourceVersion != ""
    && Paired(PlanFor(role, spec).kept, answer.value.managedFields)
  }

  /** Typed decoding clears the kind; the endpoint fixes it. */
  function Typed(role: Role): Role { role.(apiVersion := RBAC_V1, kind := "Role") }

  /**
   `migrate` on the Role that was read and the server's reply to the patch.
   It reports a transfer exactly for replies that keep the content and pair
   with the planned ownership: its final recomputation never rejects those.
   */
  method Migrate(read: Role, spec: Target, reply: Option<Role>) returns (verdict: Verdict)
    ensures verdict == Unchanged <==> PlanFor(Typed(read), spec).Nothing?
    ensures verdict == Transferred <==> Confirmed(Typed(read), spec, if reply.Some? then Some(Typed(reply.value)) else None)
    ensures verdict == Transferred ==>
              && Settled(reply.value.managedFields, RBAC_V1)
              && Owned(reply.value.managedFields) == Owned(read.managedFields)
              && reply.value.rules == read.rules && reply.value.uid == read.uid
              && reply.value.namespace == read.namespace && reply.value.name == read.name && reply.value.rest == read.rest
              && reply.value.labels == read.labels && reply.value.annotations == read.annotations
              && reply.value.deleting == read.deleting && reply.value.resourceVersion != ""
  {
    hide PlanFor, Settled, Content;
    var role := Typed(read);
    var plan := MigrationPatch(role, spec);
    if plan.Stop? { return Failed; }
    if plan.Nothing? { return Unchanged; }
    if reply.None? { return Failed; }
    var after := Typed(reply.value);
    if Content(role) != Content(after) { return Failed; }
    var same := SameOwnership(plan.kept, after.managedFields);
    if !same { return Failed; }
    var remaining := MigrationPatch(after, spec);
    AnswerSettled(role, spec, after);
    if remaining != Nothing { return Failed; }
    return Transferred;
  }

  lemma SameContent(role: Role, after: Role)
    requires Content(after) == Content(role)
    ensures after == role.(resourceVersion := after.resourceVersion, managedFields := after.managedFields)
  {
  }

  lemma AnswerSettled(role: Role, spec: Target, after: Role)
    requires role.apiVersion == RBAC_V1 && PlanFor(role, spec).Move? && Content(after) == Content(role)
    requires Paired(PlanFor(role, spec).kept, after.managedFields)
    ensures Settled(after.managedFields, RBAC_V1) && Owned(after.managedFields) == Owned(role.managedFields)
    ensures after.rules == role.rules && after.uid == role.uid && after.namespace == role.namespace && after.name == role.name
    ensures after.rest == role.rest && after.labels == role.labels && after.annotations == role.annotations
    ensures after.deleting == role.deleting
    ensures PlanFor(after, spec) == if after.resourceVersion == "" then Stop else Nothing
  {
    hide ExpectedRules, Settled, Transfer;
    SameContent(role, after);
    var kept := PlanFor(role, spec).kept;
    TransferSettles(role.managedFields, RBAC_V1);
    TransferPreserves(role.managedFields, RBAC_V1);
    PairedSettled(kept, after.managedFields, RBAC_V1);
    var p :| Pairing(p, kept, after.managedFields);
    PairingKeepsOwned(p, kept, after.managedFields);
    TransferCases(after.managedFields, RBAC_V1);
  }

  /** Patching the Role that was read keeps its content, settles the rules and leaves nothing more to migrate. */
  lemma PatchTransfers(role: Role, spec: Target)
    requires PlanFor(role, spec).Move?
    ensures var after := Apply(role, role, PlanFor(role, spec).kept).value;
            && Content(after) == Content(role) && PlanFor(after, spec) == Nothing
            && Settled(after.managedFields, RBAC_V1) && Owned(after.managedFields) == Owned(role.managedFields)
  {
    hide ExpectedRules, Settled, Transfer;
    TransferSettles(role.managedFields, RBAC_V1);
    TransferPreserves(role.managedFields, RBAC_V1);
  }

  lemma PairedWithItself(entries: seq<Entry>)
    requires forall e | e in entries :: Canon(e).Some?
    ensures Paired(entries, entries)
  {
    hide Canon;
    var p := seq(|entries|, i requires 0 <= i < |entries| => i as nat);
    assert forall i | 0 <= i < |p| :: entries[i] in entries;
    assert Pairing(p, entries, entries);
  }

  lemma SettledDecodes(entries: seq<Entry>, api: string)
    requires Settled(entries, api)
    ensures forall e | e in entries :: Canon(e).Some?
  {
    hide HelmApply, Reviewed;
    assert forall e | e in entries :: Acceptable(e, api);
  }

  /** An honest server's answer, the patched Role under a new version, is confirmed: `Migrate` reports the transfer. */
  lemma HonestAnswerIsConfirmed(role: Role, spec: Target, version: string)
    requires PlanFor(role, spec).Move? && version != ""
    ensures Confirmed(role, spec, Some(Apply(role, role, PlanFor(role, spec).kept).value.(resourceVersion := version)))
  {
    hide PlanFor, Settled, Paired, Owned, Canon;
    var kept := PlanFor(role, spec).kept;
    PatchTransfers(role, spec);
    SettledDecodes(kept, RBAC_V1);
    PairedWithItself(kept);
  }

  /** The patch is conditional: a Role that was recreated or changed since it was read is left alone. */
  lemma StalePatchFails(current: Role, read: Role, kept: seq<Entry>)
    ensures Apply(current, read, kept).Some? <==>
            && current.uid == read.uid && current.resourceVersion == read.resourceVersion
            && current.rules == read.rules && current.managedFields == read.managedFields
    ensures Apply(current, read, kept).Some? ==> Apply(current, read, kept).value == current.(managedFields := kept)
  {
  }
}
