/**
 Kubernetes field ownership and its transfer: every owner of an Argo Role's
 rules gives them up to the single Helm apply entry; nothing else moves.
 */
module Ownership {
  import opened Wrappers

  datatype Json = Null | Scalar(text: string) | Array(items: seq<Json>) | Object(fields: map<string, Json>)

  type Fields = map<string, Json>

  /** The raw field set of an entry: absent, not JSON, or a document. */
  datatype FieldsV1 = Missing | Garbage | Doc(json: Json)

  datatype Entry = Entry(manager: string, operation: string, apiVersion: string, fieldsType: string,
                         fieldsV1: FieldsV1, subresource: string, time: string)

  /** What identifies an owner, apart from its fields and its timestamp. */
  datatype Key = Key(manager: string, operation: string, apiVersion: string, fieldsType: string, subresource: string)

  const RULES := "f:rules"
  const ATOMIC := Object(map[])

  function KeyOf(e: Entry): Key { Key(e.manager, e.operation, e.apiVersion, e.fieldsType, e.subresource) }

  /** The field set as an object; `null` and other documents are refused. */
  function Decode(e: Entry): Option<Fields> {
    if e.fieldsType == "FieldsV1" && e.fieldsV1.Doc? && e.fieldsV1.json.Object? then Some(e.fieldsV1.json.fields) else None
  }

  function With(e: Entry, fields: Fields): Entry { e.(fieldsV1 := Doc(Object(fields))) }

  predicate HelmApply(e: Entry, api: string) {
    e.manager == "helm" && e.operation == "Apply" && e.apiVersion == api && e.subresource == ""
  }

  predicate Reviewed(e: Entry, api: string) {
    && e.apiVersion == api && e.subresource == "" && (e.operation == "Apply" || e.operation == "Update")
    && (e.manager == "helm" || e.manager == "kubectl-patch" || e.manager == "kubectl-client-side-apply")
  }

  predicate Owns(e: Entry) { Decode(e).Some? && RULES in Decode(e).value }

  // ---------------------------------------------------------------- the transfer

  datatype Refusal = Unrecognized | NotAtomic | Unreviewed | DuplicateHelm | NoOwner

  /** The running result of the scan over the entries. */
  datatype Scan = Bad(why: Refusal) | Good(kept: seq<Entry>, helm: int, owners: nat, changes: bool)

  /** An entry that is kept, after a possible loss of the rules. */
  function Keep(st: Scan, e: Entry, helmApply: bool, owners: nat, changes: bool): Scan
    requires st.Good?
  {
    if helmApply && st.helm >= 0 then Bad(DuplicateHelm)
    else Good(st.kept + [e], if helmApply then |st.kept| else st.helm, owners, changes)
  }

  function ScanEntry(st: Scan, e: Entry, api: string): Scan
    requires st.Good?
  {
    match Decode(e)
    case None => Bad(Unrecognized)
    case Some(fields) =>
      var helmApply := HelmApply(e, api);
      if RULES !in fields then Keep(st, e, helmApply, st.owners, st.changes)
      else if fields[RULES] != ATOMIC then Bad(NotAtomic)
      else if !Reviewed(e, api) then Bad(Unreviewed)
      else if helmApply then Keep(st, e, true, st.owners + 1, st.changes)
      else if fields - {RULES} == map[] then Good(st.kept, st.helm, st.owners + 1, true)
      else Keep(st, With(e, fields - {RULES}), false, st.owners + 1, true)
  }

  function ScanAll(entries: seq<Entry>, api: string): Scan {
    if entries == [] then Good([], -1, 0, false)
    else
      var st := ScanAll(entries[..|entries| - 1], api);
      if st.Bad? then st else ScanEntry(st, entries[|entries| - 1], api)
  }

  datatype Patch = Refuse(why: Refusal) | NoPatch | Replace(kept: seq<Entry>)

  function NewHelm(api: string): Entry { Entry("helm", "Apply", api, "FieldsV1", Doc(Object(map[])), "", "") }

  /** Gives the rules to the Helm entry at `helm`, or to a new one. */
  function GrantHelm(kept: seq<Entry>, helm: int, api: string): seq<Entry>
    requires helm < |kept| && (helm >= 0 ==> Decode(kept[helm]).Some?)
  {
    if helm < 0 then kept + [With(NewHelm(api), map[RULES := ATOMIC])]
    else kept[helm := With(kept[helm], Decode(kept[helm]).value[RULES := ATOMIC])]
  }

  /** The shape of every good scan. */
  ghost predicate Sound(st: Scan, api: string) {
    st.Good? ==>
      && st.helm < |st.kept|
      && (forall i | 0 <= i < |st.kept| :: Decode(st.kept[i]).Some?)
      && (forall i | 0 <= i < |st.kept| :: HelmApply(st.kept[i], api) <==> i == st.helm)
      && (forall i | 0 <= i < |st.kept| && Owns(st.kept[i]) :: i == st.helm && Decode(st.kept[i]).value[RULES] == ATOMIC)
  }

  lemma {:induction false} ScanSound(entries: seq<Entry>, api: string)
    ensures Sound(ScanAll(entries, api), api)
    decreases |entries|
  {
    if entries != [] {
      ScanSound(entries[..|entries| - 1], api);
      var st := ScanAll(entries[..|entries| - 1], api);
      if st.Good? { EntrySound(st, entries[|entries| - 1], api); }
    }
  }

  lemma EntrySound(st: Scan, e: Entry, api: string)
    requires st.Good? && Sound(st, api)
    ensures Sound(ScanEntry(st, e, api), api)
  {
    hide Keep;
    if Decode(e).Some? {
      var fields := Decode(e).value;
      KeepSound(st, e, HelmApply(e, api), st.owners, st.changes, api);
      KeepSound(st, e, HelmApply(e, api), st.owners + 1, st.changes, api);
      KeepSound(st, With(e, fields - {RULES}), false, st.owners + 1, true, api);
      SoundAnyway(st, st.owners + 1, true, api);
    }
  }

  lemma SoundAnyway(st: Scan, owners: nat, changes: bool, api: string)
    requires st.Good? && Sound(st, api)
    ensures Sound(Good(st.kept, st.helm, owners, changes), api)
  {
  }

  lemma KeepSound(st: Scan, e: Entry, helmApply: bool, owners: nat, changes: bool, api: string)
    requires st.Good? && Sound(st, api)
    ensures Decode(e).Some? && helmApply == HelmApply(e, api) && (Owns(e) ==> helmApply && Decode(e).value[RULES] == ATOMIC) ==>
              Sound(Keep(st, e, helmApply, owners, changes), api)
  {
  }

  function Transfer(entries: seq<Entry>, api: string): Patch {
    ScanSound(entries, api);
    match ScanAll(entries, api)
    case Bad(why) => Refuse(why)
    case Good(kept, helm, owners, changes) =>
      if owners == 0 then Refuse(NoOwner) else if !changes then NoPatch else Replace(GrantHelm(kept, helm, api))
  }

  // ---------------------------------------------------------------- when it refuses, does nothing, or transfers

  /** An entry the transfer can handle: a readable field set, and rules only in the reviewed atomic form. */
  predicate Acceptable(e: Entry, api: string) {
    Decode(e).Some? && (Owns(e) ==> Decode(e).value[RULES] == ATOMIC && Reviewed(e, api))
  }

  ghost predicate AllAcceptable(entries: seq<Entry>, api: string) {
    && (forall e | e in entries :: Acceptable(e, api))
    && (forall i, j | 0 <= i < j < |entries| :: !(HelmApply(entries[i], api) && HelmApply(entries[j], api)))
  }

  /** Some owner other than the Helm apply entry. */
  ghost predicate OtherOwner(entries: seq<Entry>, api: string) { exists e :: e in entries && Owns(e) && !HelmApply(e, api) }

  ghost predicate SomeOwner(entries: seq<Entry>) { exists e :: e in entries && Owns(e) }

  /** The state the transfer aims at: the one Helm apply entry owns the rules and nobody else does. */
  ghost predicate Settled(entries: seq<Entry>, api: string) {
    AllAcceptable(entries, api) && SomeOwner(entries) && !OtherOwner(entries, api)
  }

  /** What the scan found, in terms of the entries themselves. */
  ghost predicate Found(st: Scan, entries: seq<Entry>, api: string) {
    && (st.Good? <==> AllAcceptable(entries, api))
    && (st.Good? ==>
          && (st.owners > 0 <==> SomeOwner(entries))
          && (st.changes <==> OtherOwner(entries, api))
          && (st.helm >= 0 <==> exists e :: e in entries && HelmApply(e, api))
          && (!st.changes ==> st.kept == entries))
  }

  lemma {:induction false} ScanFinds(entries: seq<Entry>, api: string)
    ensures Found(ScanAll(entries, api), entries, api)
    decreases |entries|
  {
    if entries != [] {
      var front, e := entries[..|entries| - 1], entries[|entries| - 1];
      ScanFinds(front, api);
      FoundExtends(ScanAll(front, api), front, e, api);
      assert entries == front + [e];
    }
  }

  lemma HelmUnique(front: seq<Entry>, e: Entry, api: string)
    ensures AllAcceptable(front + [e], api) <==>
            AllAcceptable(front, api) && Acceptable(e, api) && !(HelmApply(e, api) && exists x :: x in front && HelmApply(x, api))
  {
    hide Acceptable, HelmApply;
    var all := front + [e];
    assert forall x :: x in all <==> x in front || x == e;
    if AllAcceptable(all, api) {
      forall i, j | 0 <= i < j < |front| ensures !(HelmApply(front[i], api) && HelmApply(front[j], api)) {
        assert all[i] == front[i] && all[j] == front[j];
      }
      forall x | x in front && HelmApply(x, api) ensures !HelmApply(e, api) {
        var i :| 0 <= i < |front| && front[i] == x;
        assert all[i] == x && all[|front|] == e;
      }
    }
  }

  lemma FoundExtends(st: Scan, front: seq<Entry>, e: Entry, api: string)
    requires Found(st, front, api)
    ensures Found(if st.Bad? then st else ScanEntry(st, e, api), front + [e], api)
  {
    HelmUnique(front, e, api);
    assert forall x :: x in front + [e] <==> x in front || x == e;
    if st.Good? {
      OwnersExtend(front, e, api);
      EntryFinds(st, e, api);
    }
  }

  lemma OwnersExtend(front: seq<Entry>, e: Entry, api: string)
    ensures SomeOwner(front + [e]) <==> SomeOwner(front) || Owns(e)
    ensures OtherOwner(front + [e], api) <==> OtherOwner(front, api) || (Owns(e) && !HelmApply(e, api))
  {
  }

  /** One entry's effect on the running result. */
  lemma EntryFinds(st: Scan, e: Entry, api: string)
    requires st.Good?
    ensures var next := ScanEntry(st, e, api);
            && (next.Good? <==> Acceptable(e, api) && !(HelmApply(e, api) && st.helm >= 0))
            && (next.Good? ==>
                  && next.owners == st.owners + (if Owns(e) then 1 else 0)
                  && (next.changes <==> st.changes || (Owns(e) && !HelmApply(e, api)))
                  && (next.helm >= 0 <==> st.helm >= 0 || HelmApply(e, api))
                  && (!next.changes ==> next.kept == st.kept + [e]))
  {
  }

  /** Exactly when the transfer refuses, has nothing to do, or rewrites the entries. */
  lemma TransferCases(entries: seq<Entry>, api: string)
    ensures Transfer(entries, api).Refuse? <==> !(AllAcceptable(entries, api) && SomeOwner(entries))
    ensures Transfer(entries, api).NoPatch? <==> Settled(entries, api)
    ensures Transfer(entries, api).Replace? <==> AllAcceptable(entries, api) && OtherOwner(entries, api)
  {
    hide AllAcceptable;
    ScanFinds(entries, api);
  }

  // ---------------------------------------------------------------- the result

  /** After a transfer the single Helm apply entry is the only owner, so doing it again changes nothing. */
  lemma TransferSettles(entries: seq<Entry>, api: string)
    requires Transfer(entries, api).Replace?
    ensures Settled(Transfer(entries, api).kept, api)
    ensures Transfer(Transfer(entries, api).kept, api) == NoPatch
  {
    var st := ScanAll(entries, api);
    ScanSound(entries, api);
    GrantSettles(st, api);
    TransferCases(Transfer(entries, api).kept, api);
  }

  lemma GrantSettles(st: Scan, api: string)
    requires st.Good? && Sound(st, api)
    ensures Settled(GrantHelm(st.kept, st.helm, api), api)
  {
    var out := GrantHelm(st.kept, st.helm, api);
    var h := if st.helm < 0 then |st.kept| else st.helm;
    forall i | 0 <= i < |out|
      ensures Acceptable(out[i], api) && (HelmApply(out[i], api) <==> i == h) && (Owns(out[i]) <==> i == h)
    {
      assert i != h ==> out[i] == st.kept[i];
    }
    assert out[h] in out;
  }

  datatype Grant = Grant(key: Key, field: string, value: Json)

  /** What an entry owns besides the rules. */
  function OwnedBy(e: Entry): multiset<Grant> {
    match Decode(e)
    case None => multiset{}
    case Some(fields) => multiset(set field | field in fields && field != RULES :: Grant(KeyOf(e), field, fields[field]))
  }

  function Owned(entries: seq<Entry>): multiset<Grant> {
    if entries == [] then multiset{} else Owned(entries[..|entries| - 1]) + OwnedBy(entries[|entries| - 1])
  }

  lemma SameGrants(e: Entry, fields: Fields)
    requires Decode(e).Some? && fields - {RULES} == Decode(e).value - {RULES}
    ensures OwnedBy(With(e, fields)) == OwnedBy(e)
  {
    var old' := Decode(e).value;
    assert forall field :: field in fields && field != RULES <==> field in old' && field != RULES by {
      assert forall field :: field in fields && field != RULES <==> field in fields - {RULES};
      assert forall field :: field in old' && field != RULES <==> field in old' - {RULES};
    }
    assert forall field | field in fields && field != RULES :: fields[field] == old'[field] by {
      assert forall field | field in fields - {RULES} :: (fields - {RULES})[field] == fields[field];
    }
    assert (set field | field in fields && field != RULES :: Grant(KeyOf(e), field, fields[field])) ==
           (set field | field in old' && field != RULES :: Grant(KeyOf(e), field, old'[field]));
  }

  lemma OnlyRules(e: Entry)
    requires Decode(e).Some? && Decode(e).value - {RULES} == map[]
    ensures OwnedBy(e) == multiset{}
  {
    var fields := Decode(e).value;
    assert forall field :: field in fields - {RULES} <==> field in fields && field != RULES;
  }

  lemma EntryKeepsOwned(st: Scan, e: Entry, api: string)
    requires st.Good? && ScanEntry(st, e, api).Good?
    ensures Owned(ScanEntry(st, e, api).kept) == Owned(st.kept) + OwnedBy(e)
  {
    var fields := Decode(e).value;
    assert (fields - {RULES}) - {RULES} == fields - {RULES};
    SameGrants(e, fields - {RULES});
    if fields - {RULES} == map[] && RULES in fields && !HelmApply(e, api) {
      OnlyRules(e);
    } else {
      var kept := ScanEntry(st, e, api).kept;
      assert kept[..|kept| - 1] == st.kept;
    }
  }

  lemma {:induction false} ScanKeepsOwned(entries: seq<Entry>, api: string)
    requires ScanAll(entries, api).Good?
    ensures Owned(ScanAll(entries, api).kept) == Owned(entries)
    decreases |entries|
  {
    if entries != [] {
      var front := entries[..|entries| - 1];
      ScanKeepsOwned(front, api);
      EntryKeepsOwned(ScanAll(front, api), entries[|entries| - 1], api);
    }
  }

  lemma {:induction false} OwnedUpdate(entries: seq<Entry>, i: nat, e: Entry)
    requires i < |entries| && OwnedBy(e) == OwnedBy(entries[i])
    ensures Owned(entries[i := e]) == Owned(entries)
    decreases |entries|
  {
    var n := |entries| - 1;
    if i < n {
      OwnedUpdate(entries[..n], i, e);
      assert entries[i := e][..n] == entries[..n][i := e];
    } else {
      assert entries[i := e][..n] == entries[..n];
    }
  }

  /** The transfer moves the rules and nothing else: every other ownership is there exactly as often as before. */
  lemma TransferPreserves(entries: seq<Entry>, api: string)
    requires Transfer(entries, api).Replace?
    ensures Owned(Transfer(entries, api).kept) == Owned(entries)
  {
    ScanSound(entries, api);
    ScanKeepsOwned(entries, api);
    var st := ScanAll(entries, api);
    GrantKeepsOwned(st.kept, st.helm, api);
  }

  lemma GrantKeepsOwned(kept: seq<Entry>, helm: int, api: string)
    requires helm < |kept| && (helm >= 0 ==> Decode(kept[helm]).Some?)
    ensures Owned(GrantHelm(kept, helm, api)) == Owned(kept)
  {
    if helm < 0 {
      var granted := With(NewHelm(api), map[RULES := ATOMIC]);
      OnlyRules(granted);
      assert (kept + [granted])[..|kept|] == kept;
    } else {
      var fields := Decode(kept[helm]).value;
      assert fields[RULES := ATOMIC] - {RULES} == fields - {RULES};
      SameGrants(kept[helm], fields[RULES := ATOMIC]);
      OwnedUpdate(kept, helm, With(kept[helm], fields[RULES := ATOMIC]));
    }
  }

  // ---------------------------------------------------------------- in the words of the API

  /** The entry's field set as the API server sends it: an object under the FieldsV1 encoding. */
  predicate Readable(e: Entry) { e.fieldsType == "FieldsV1" && e.fieldsV1.Doc? && e.fieldsV1.json.Object? }

  predicate OwnsRules(e: Entry) { Readable(e) && "f:rules" in e.fieldsV1.json.fields }

  /** The entry that server-side apply by Helm keeps on the object itself. */
  predicate IsHelmApply(e: Entry, api: string) {
    e.manager == "helm" && e.operation == "Apply" && e.apiVersion == api && e.subresource == ""
  }

  /** Whom the rules may be taken from: Helm and two kubectl managers, applying or updating the object itself. */
  predicate MayGiveUp(e: Entry, api: string) {
    && e.manager in {"helm", "kubectl-patch", "kubectl-client-side-apply"} && e.operation in {"Apply", "Update"}
    && e.apiVersion == api && e.subresource == ""
  }

  lemma AcceptableIff(e: Entry, api: string)
    ensures Owns(e) <==> OwnsRules(e)
    ensures HelmApply(e, api) <==> IsHelmApply(e, api)
    ensures Acceptable(e, api) <==>
            Readable(e) && (OwnsRules(e) ==> e.fieldsV1.json.fields["f:rules"] == Object(map[]) && MayGiveUp(e, api))
  {
  }

  /** After a transfer exactly one entry owns the rules, atomically, and it is Helm's. */
  lemma HelmIsSoleOwner(entries: seq<Entry>, api: string)
    requires Transfer(entries, api).Replace?
    ensures var out := Transfer(entries, api).kept;
            && (forall e | e in out :: Readable(e))
            && (exists e :: e in out && OwnsRules(e))
            && (forall e | e in out && OwnsRules(e) :: IsHelmApply(e, api) && e.fieldsV1.json.fields["f:rules"] == Object(map[]))
            && (forall i, j | 0 <= i < j < |out| :: !(OwnsRules(out[i]) && OwnsRules(out[j])))
  {
    hide Transfer, Owns, HelmApply, Acceptable, Readable, OwnsRules, IsHelmApply, MayGiveUp;
    TransferSettles(entries, api);
    var out := Transfer(entries, api).kept;
    forall e | e in out
      ensures Readable(e) && Owns(e) == OwnsRules(e) && HelmApply(e, api) == IsHelmApply(e, api)
      ensures OwnsRules(e) ==> IsHelmApply(e, api) && AtomicRules(e)
    {
      AcceptableIff(e, api);
      assert Acceptable(e, api);
    }
  }

  predicate AtomicRules(e: Entry)
    requires OwnsRules(e)
  {
    e.fieldsV1.json.fields["f:rules"] == Object(map[])
  }

  // ---------------------------------------------------------------- entry by entry

  /** An entry without its share in the rules, everything else as it is. */
  function Strip(e: Entry): Entry {
    if Readable(e) then e.(fieldsV1 := Doc(Object(e.fieldsV1.json.fields - {"f:rules"}))) else e
  }

  /** The entry owned nothing but the rules and gives them up. */
  predicate Vanishes(e: Entry, api: string) {
    Decode(e).Some? && RULES in Decode(e).value && !HelmApply(e, api) && Decode(e).value - {RULES} == map[]
  }

  function Survivors(entries: seq<Entry>, api: string): seq<Entry> {
    if entries == [] then []
    else
      var e := entries[|entries| - 1];
      Survivors(entries[..|entries| - 1], api) + if Vanishes(e, api) then [] else [Strip(e)]
  }

  function Stripped(entries: seq<Entry>): (r: seq<Entry>)
    ensures |r| == |entries| && forall i | 0 <= i < |entries| :: r[i] == Strip(entries[i])
  {
    if entries == [] then [] else Stripped(entries[..|entries| - 1]) + [Strip(entries[|entries| - 1])]
  }

  lemma {:induction false} StrippedSnoc(entries: seq<Entry>, e: Entry)
    ensures Stripped(entries + [e]) == Stripped(entries) + [Strip(e)]
  {
    assert (entries + [e])[..|entries|] == entries;
  }

  lemma StripAgain(e: Entry, fields: Fields)
    requires Decode(e).Some? && fields - {RULES} == Decode(e).value - {RULES}
    ensures Strip(With(e, fields)) == Strip(e)
  {
  }

  lemma {:induction false} ScanKeepsEntries(entries: seq<Entry>, api: string)
    requires ScanAll(entries, api).Good?
    ensures Stripped(ScanAll(entries, api).kept) == Survivors(entries, api)
    decreases |entries|
  {
    if entries != [] {
      var front, e := entries[..|entries| - 1], entries[|entries| - 1];
      ScanKeepsEntries(front, api);
      var st := ScanAll(front, api);
      var fields := Decode(e).value;
      StrippedSnoc(st.kept, e);
      StrippedSnoc(st.kept, With(e, fields - {RULES}));
      assert (fields - {RULES}) - {RULES} == fields - {RULES};
      StripAgain(e, fields - {RULES});
    }
  }

  /**
   The transfer touches nothing but the rules: apart from them the entries are
   the old ones, in their order and with all their attributes, without those
   that owned nothing else; a Helm entry is added at the end if there was none.
   */
  lemma TransferKeepsEntries(entries: seq<Entry>, api: string)
    requires Transfer(entries, api).Replace?
    ensures var out := Stripped(Transfer(entries, api).kept);
            if exists e :: e in entries && IsHelmApply(e, api) then out == Survivors(entries, api)
            else out == Survivors(entries, api) + [Entry("helm", "Apply", api, "FieldsV1", Doc(Object(map[])), "", "")]
  {
    hide HelmApply, IsHelmApply, Found, Sound;
    ScanSound(entries, api);
    ScanFinds(entries, api);
    ScanKeepsEntries(entries, api);
    var st := ScanAll(entries, api);
    GrantKeepsEntries(st, entries, api);
    forall e ensures HelmApply(e, api) == IsHelmApply(e, api) { AcceptableIff(e, api); }
  }

  lemma GrantKeepsEntries(st: Scan, entries: seq<Entry>, api: string)
    requires st.Good? && Sound(st, api) && Found(st, entries, api)
    ensures st.helm >= 0 <==> exists e :: e in entries && HelmApply(e, api)
    ensures var out := Stripped(GrantHelm(st.kept, st.helm, api));
            if st.helm >= 0 then out == Stripped(st.kept)
            else out == Stripped(st.kept) + [Entry("helm", "Apply", api, "FieldsV1", Doc(Object(map[])), "", "")]
  {
    hide HelmApply, Owns, AllAcceptable, Strip, Decode, With;
    if st.helm >= 0 {
      var old' := st.kept[st.helm];
      var fields := Decode(old').value;
      assert fields[RULES := ATOMIC] - {RULES} == fields - {RULES};
      StripAgain(old', fields[RULES := ATOMIC]);
    } else {
      NewHelmStripped(api);
      StrippedSnoc(st.kept, With(NewHelm(api), map[RULES := ATOMIC]));
    }
  }

  lemma NewHelmStripped(api: string)
    ensures Strip(With(NewHelm(api), map[RULES := ATOMIC])) == Entry("helm", "Apply", api, "FieldsV1", Doc(Object(map[])), "", "")
  {
    assert map[RULES := ATOMIC] - {RULES} == map[];
  }
}
