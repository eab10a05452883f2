/** Import of confirmed credentials into the keyring. */
module CredentialImport {
  import opened Text

  type Secret = seq<Byte>

  /** A keyring entry: service and account. */
  datatype Slot = Slot(service: string, account: string)

  type Secrets = map<Slot, Secret>

  datatype Entry = Entry(sourceService: string, sourceAccount: string, targetKey: string)

  const LEGACY_AI_SERVICE := "com.lilia.desktop.ai"
  const LEGACY_AI_ACCOUNT := "assistant-ai"
  const LEGACY_GITHUB_SERVICE := "com.lilia.desktop.github"
  const AI_TARGET := "assistant-ai"
  const GITHUB_TARGET := "github.oauth.token"
  const AGENTKIT := "agentkit."

  function Source(e: Entry): Slot { Slot(e.sourceService, e.sourceAccount) }

  function Target(identity: string, e: Entry): Slot { Slot(identity, e.targetKey) }

  // ----- The manifest -----

  predicate Alphanumeric(c: char) { 'a' <= c <= 'z' || 'A' <= c <= 'Z' || '0' <= c <= '9' }

  predicate ValidAgentkitKey(key: string) {
    && AGENTKIT < key && |key| <= 256
    && forall i :: |AGENTKIT| <= i < |key| ==>
         Alphanumeric(key[i]) || key[i] == '-' || key[i] == '_' || key[i] == '.' || key[i] == ':'
  }

  predicate ValidLogin(login: string) {
    && 0 < |login| <= 39 && login[0] != '-' && login[|login| - 1] != '-'
    && forall i :: 0 <= i < |login| ==> Alphanumeric(login[i]) || login[i] == '-'
  }

  predicate ValidEntry(source: string, e: Entry) {
    if e.sourceService == source then e.sourceAccount == e.targetKey && ValidAgentkitKey(e.targetKey)
    else if e.sourceService == LEGACY_AI_SERVICE then
      e.sourceAccount == LEGACY_AI_ACCOUNT && e.targetKey == AI_TARGET
    else if e.sourceService == LEGACY_GITHUB_SERVICE then
      e.targetKey == GITHUB_TARGET && ValidLogin(e.sourceAccount)
    else false
  }

  /** The order of entries: by target key, then source service, then account. */
  predicate EntryLess(a: Entry, b: Entry) {
    || Less(a.targetKey, b.targetKey)
    || (a.targetKey == b.targetKey &&
        (Less(a.sourceService, b.sourceService) ||
         (a.sourceService == b.sourceService && Less(a.sourceAccount, b.sourceAccount))))
  }

  predicate ValidManifest(identity: string, source: string, entries: seq<Entry>) {
    && !Blank(source) && (forall i :: 0 <= i < |source| ==> !IsControl(source[i]))
    && source != identity && |entries| <= 4096
    && (forall i :: 0 < i < |entries| ==> EntryLess(entries[i - 1], entries[i]))
    && (forall i :: 0 <= i < |entries| ==> ValidEntry(source, entries[i]))
  }

  /** A manifest is valid exactly if it is sorted, not too long, from another instance
      with a proper name, and each entry is an account of that instance under its own
      name, or one of an older version under the name that replaces it. */
  lemma ManifestExactly(identity: string, source: string, entries: seq<Entry>)
    ensures ValidManifest(identity, source, entries) <==>
            && !AllWhitespace(source) && source != identity && |entries| <= 4096
            && (forall c <- source :: !(c <= '\U{001F}' || '\U{007F}' <= c <= '\U{009F}'))
            && (forall i :: 0 < i < |entries| ==> EntryLess(entries[i - 1], entries[i]))
            && (forall e <- entries ::
                  || (e.sourceService == source && e.targetKey == e.sourceAccount && ValidAgentkitKey(e.sourceAccount))
                  || (e == Entry("com.lilia.desktop.ai", "assistant-ai", "assistant-ai") && e.sourceService != source)
                  || (e == Entry("com.lilia.desktop.github", e.sourceAccount, "github.oauth.token") &&
                      ValidLogin(e.sourceAccount) && e.sourceService != source))
  {
    BlankExactly(source);
    assert forall i :: 0 <= i < |source| ==> source[i] in source;
    assert forall i :: 0 <= i < |entries| ==> entries[i] in entries;
    assert LEGACY_AI_SERVICE != LEGACY_GITHUB_SERVICE by {
      assert |LEGACY_AI_SERVICE| != |LEGACY_GITHUB_SERVICE|;
    }
  }

  /** The characters of an agent key and of a login. */
  lemma NamesExactly(name: string)
    ensures ValidAgentkitKey("agentkit." + name) <==>
            && 1 <= |name| <= 247
            && forall c <- name :: 'a' <= c <= 'z' || 'A' <= c <= 'Z' || '0' <= c <= '9' || c in "-_.:"
    ensures ValidLogin(name) <==>
            && 1 <= |name| <= 39 && !("-" <= name) && name[|name| - 1] != '-'
            && forall c <- name :: 'a' <= c <= 'z' || 'A' <= c <= 'Z' || '0' <= c <= '9' || c == '-'
  {
    var key := "agentkit." + name;
    assert forall i :: 0 <= i < |name| ==> key[i + 9] == name[i] && name[i] in name;
    assert forall i :: 9 <= i < |key| ==> key[i] == name[i - 9];
    assert "-" <= name <==> name != "" && name[0] == '-';
  }

  lemma EntryLessTransitive(a: Entry, b: Entry, c: Entry)
    requires EntryLess(a, b) && EntryLess(b, c)
    ensures EntryLess(a, c)
  {
    if Less(a.targetKey, b.targetKey) && Less(b.targetKey, c.targetKey) {
      LessTransitive(a.targetKey, b.targetKey, c.targetKey);
    } else if Less(a.sourceService, b.sourceService) && Less(b.sourceService, c.sourceService) {
      LessTransitive(a.sourceService, b.sourceService, c.sourceService);
    } else if Less(a.sourceAccount, b.sourceAccount) && Less(b.sourceAccount, c.sourceAccount) {
      LessTransitive(a.sourceAccount, b.sourceAccount, c.sourceAccount);
    }
  }

  /** Checking neighbours orders all pairs. */
  lemma {:induction false} NeighboursOrderAll(entries: seq<Entry>, i: nat, j: nat)
    requires forall k :: 0 < k < |entries| ==> EntryLess(entries[k - 1], entries[k])
    requires i < j < |entries|
    ensures EntryLess(entries[i], entries[j]) && entries[i] != entries[j]
  {
    assert EntryLess(entries[j - 1], entries[j]);
    if i < j - 1 {
      NeighboursOrderAll(entries, i, j - 1);
      EntryLessTransitive(entries[i], entries[j - 1], entries[j]);
    }
    LessIrreflexive(entries[i].targetKey);
    LessIrreflexive(entries[i].sourceService);
    LessIrreflexive(entries[i].sourceAccount);
  }

  // ----- What an undisturbed import does -----

  datatype Verdict = Imported | Skipped | Failed

  function At(secrets: Secrets, slot: Slot): Option<Secret> {
    if slot in secrets then Some(secrets[slot]) else None
  }

  function VerdictFor(identity: string, e: Entry, secrets: Secrets): Verdict {
    var from, to := At(secrets, Source(e)), At(secrets, Target(identity, e));
    if Blank(e.sourceAccount) || Blank(e.targetKey) || from == None then Failed
    else if to == None then Imported
    else if to == from then Skipped else Failed
  }

  function AfterOne(identity: string, e: Entry, secrets: Secrets): Secrets {
    if VerdictFor(identity, e, secrets).Imported? then secrets[Target(identity, e) := secrets[Source(e)]]
    else secrets
  }

  function After(identity: string, entries: seq<Entry>, secrets: Secrets): Secrets {
    if entries == [] then secrets
    else AfterOne(identity, entries[|entries| - 1], After(identity, entries[..|entries| - 1], secrets))
  }

  function Verdicts(identity: string, entries: seq<Entry>, secrets: Secrets): (vs: seq<Verdict>)
    ensures |vs| == |entries|
  {
    if entries == [] then []
    else
      var init, last := entries[..|entries| - 1], entries[|entries| - 1];
      Verdicts(identity, init, secrets) + [VerdictFor(identity, last, After(identity, init, secrets))]
  }

  datatype Report = Report(imported: nat, skipped: nat, failed: nat, available: seq<string>)

  function Count(r: Report, v: Verdict, key: string): Report {
    match v
    case Imported => r.(imported := r.imported + 1, available := r.available + [key])
    case Skipped => r.(skipped := r.skipped + 1, available := r.available + [key])
    case Failed => r.(failed := r.failed + 1)
  }

  function Tally(entries: seq<Entry>, vs: seq<Verdict>): Report
    requires |entries| == |vs|
  {
    if vs == [] then Report(0, 0, 0, [])
    else Count(Tally(entries[..|vs| - 1], vs[..|vs| - 1]), vs[|vs| - 1], entries[|vs| - 1].targetKey)
  }

  ghost predicate Stored(identity: string, keys: seq<string>, secrets: Secrets) {
    forall key <- keys :: Slot(identity, key) in secrets
  }

  /** Nothing that was stored is changed or removed. */
  ghost predicate Extends(before: Secrets, after: Secrets) {
    forall slot <- before :: slot in after && after[slot] == before[slot]
  }

  // ----- The import, over a keyring whose operations may fail -----

  class Keyring {
    var secrets: Secrets
    var faults: nat

    method Open(account: string) returns (ok: bool)
      modifies this`faults
      ensures faults == old(faults) ==> ok == !Blank(account)
      ensures faults != old(faults) ==> !ok && faults == old(faults) + 1
      ensures ok ==> !Blank(account)
    {
      if Blank(account) { return false; }
      ok := *;
      if !ok { faults := faults + 1; }
    }

    /** `ok` is false when the read itself failed. */
    method Read(slot: Slot) returns (ok: bool, secret: Option<Secret>)
      modifies this`faults
      ensures ok ==> secret == At(secrets, slot) && faults == old(faults)
      ensures !ok ==> faults == old(faults) + 1
    {
      secret := At(secrets, slot);
      ok := *;
      if !ok { faults := faults + 1; }
    }

    method Write(slot: Slot, secret: Secret) returns (ok: bool)
      modifies this
      ensures ok ==> secrets == old(secrets)[slot := secret] && faults == old(faults)
      ensures !ok ==> secrets == old(secrets) && faults == old(faults) + 1
    {
      ok := *;
      if ok { secrets := secrets[slot := secret]; } else { faults := faults + 1; }
    }

    /** The source secret of an entry whose two slots can be opened. */
    method Fetch(e: Entry) returns (secret: Option<Secret>)
      modifies this`faults
      ensures faults >= old(faults)
      ensures secret.Some? ==> secret == At(secrets, Source(e)) && faults == old(faults)
      ensures secret.Some? ==> !Blank(e.sourceAccount) && !Blank(e.targetKey)
      ensures secret.None? && faults == old(faults) ==>
                Blank(e.sourceAccount) || Blank(e.targetKey) || Source(e) !in secrets
    {
      var source := Open(e.sourceAccount);
      var target := Open(e.targetKey);
      if !source || !target { return None; }
      var ok;
      ok, secret := Read(Source(e));
      if !ok { secret := None; }
    }

    method ImportOne(identity: string, e: Entry) returns (v: Verdict)
      modifies this
      ensures faults >= old(faults)
      ensures faults == old(faults) ==> v == VerdictFor(identity, e, old(secrets))
      // Without a fault the two slots decide.
      ensures faults == old(faults) ==>
                var source, target := Slot(e.sourceService, e.sourceAccount), Slot(identity, e.targetKey);
                if AllWhitespace(e.sourceAccount) || AllWhitespace(e.targetKey) || source !in old(secrets)
                then v == Failed
                else if target !in old(secrets)
                then v == Imported && secrets == old(secrets)[target := old(secrets)[source]]
                else v == if old(secrets)[target] == old(secrets)[source] then Skipped else Failed
      ensures v.Imported? || v.Skipped? ==> Source(e) in old(secrets)
      ensures v.Imported? ==>
                && Target(identity, e) !in old(secrets)
                && secrets == old(secrets)[Target(identity, e) := old(secrets)[Source(e)]]
      ensures v.Skipped? ==> At(secrets, Target(identity, e)) == At(secrets, Source(e))
      ensures !v.Imported? ==> secrets == old(secrets)
    {
      BlankExactly(e.sourceAccount);
      BlankExactly(e.targetKey);
      var secret := Fetch(e);
      if secret.None? { return Failed; }
      var ok, existing := Read(Target(identity, e));
      if !ok { return Failed; }
      if existing.Some? { return if existing == secret then Skipped else Failed; }
      ok := Write(Target(identity, e), secret.value);
      v := if ok then Imported else Failed;
    }

    method ImportAll(identity: string, entries: seq<Entry>) returns (result: Report)
      modifies this
      ensures faults >= old(faults) && Extends(old(secrets), secrets)
      ensures result.imported + result.skipped + result.failed == |entries|
      ensures |result.available| == result.imported + result.skipped
      ensures Stored(identity, result.available, secrets)
      ensures faults == old(faults) ==>
                && secrets == After(identity, entries, old(secrets))
                && result == Tally(entries, Verdicts(identity, entries, old(secrets)))
    {
      result := Report(0, 0, 0, []);
      for i := 0 to |entries|
        invariant faults >= old(faults) && Extends(old(secrets), secrets)
        invariant result.imported + result.skipped + result.failed == i
        invariant |result.available| == result.imported + result.skipped
        invariant Stored(identity, result.available, secrets)
        invariant faults == old(faults) ==>
                    && secrets == After(identity, entries[..i], old(secrets))
                    && result == Tally(entries[..i], Verdicts(identity, entries[..i], old(secrets)))
      {
        var e := entries[i];
        ghost var before := secrets;
        var v := ImportOne(identity, e);
        assert entries[..i + 1] == entries[..i] + [e];
        result := Count(result, v, e.targetKey);
      }
      assert entries[..|entries|] == entries;
    }

    /** None when the manifest is invalid; nothing was touched then. `taken` lists the
        entries whose key is available. */
    method ImportConfirmed(identity: string, source: string, entries: seq<Entry>)
      returns (r: Option<Report>, ghost taken: seq<nat>)
      modifies this
      // Without a fault, every entry whose source exists in the end has a target: what
      // was there, else the secret of the first such entry.
      ensures r.Some? && faults == old(faults) ==>
                forall i :: 0 <= i < |entries| ==>
                  var e := entries[i];
                  var from, to := Slot(e.sourceService, e.sourceAccount), Slot(identity, e.targetKey);
                  from in secrets ==>
                    && to in secrets
                    && (to !in old(secrets) &&
                        (forall j :: 0 <= j < i && entries[j].targetKey == e.targetKey ==>
                           Slot(entries[j].sourceService, entries[j].sourceAccount) !in secrets) ==>
                          secrets[to] == secrets[from])
      // The available keys are those of the entries whose two slots agree in the end.
      ensures r.Some? && faults == old(faults) ==>
                && Positions(taken, |entries|) && |taken| == |r.value.available|
                && (forall k :: 0 <= k < |taken| ==> r.value.available[k] == entries[taken[k]].targetKey)
                && forall i :: 0 <= i < |entries| ==>
                     var e := entries[i];
                     var from, to := Slot(e.sourceService, e.sourceAccount), Slot(identity, e.targetKey);
                     i in taken <==> from in secrets && to in secrets && secrets[from] == secrets[to]
      ensures r.Some? && faults == old(faults) ==> r.value.imported == |secrets.Keys - old(secrets).Keys|
      ensures r.None? <==> !ValidManifest(identity, source, entries)
      ensures r.None? ==> secrets == old(secrets)
      ensures faults >= old(faults) && Extends(old(secrets), secrets)
      ensures r.Some? ==> r.value.imported + r.value.skipped + r.value.failed == |entries|
      ensures r.Some? ==> |r.value.available| == r.value.imported + r.value.skipped
      ensures r.Some? ==> Stored(identity, r.value.available, secrets)
      ensures r.Some? && faults == old(faults) ==>
                && secrets == After(identity, entries, old(secrets))
                && r.value == Tally(entries, Verdicts(identity, entries, old(secrets)))
    {
      taken := [];
      if !ValidManifest(identity, source, entries) { return None, taken; }
      var result := ImportAll(identity, entries);
      r := Some(result);
      if faults == old(faults) {
        taken := AvailableExactly(identity, source, entries, old(secrets));
        AllStored(identity, source, entries, old(secrets));
        ImportedAreNew(identity, entries, old(secrets));
      }
    }
  }

  lemma AfterStep(identity: string, entries: seq<Entry>, i: nat, secrets: Secrets)
    requires i < |entries|
    ensures After(identity, entries[..i + 1], secrets) ==
            AfterOne(identity, entries[i], After(identity, entries[..i], secrets))
  {
    assert entries[..i + 1][..i] == entries[..i];
  }

  // ----- A second import -----

  lemma {:induction false} PrefixExtends(identity: string, entries: seq<Entry>, n: nat, secrets: Secrets)
    requires n <= |entries|
    ensures Extends(After(identity, entries[..n], secrets), After(identity, entries, secrets))
    decreases |entries| - n
  {
    if n == |entries| {
      assert entries[..n] == entries;
    } else {
      assert entries[..n + 1][..n] == entries[..n];
      PrefixExtends(identity, entries, n + 1, secrets);
    }
  }

  /** A slot that no later entry targets keeps its value. */
  lemma {:induction false} UntargetedKept(identity: string, entries: seq<Entry>, n: nat, secrets: Secrets, slot: Slot)
    requires n <= |entries|
    requires forall j :: n <= j < |entries| ==> Target(identity, entries[j]) != slot
    ensures At(After(identity, entries, secrets), slot) == At(After(identity, entries[..n], secrets), slot)
    decreases |entries| - n
  {
    if n == |entries| {
      assert entries[..n] == entries;
    } else {
      assert entries[..n + 1][..n] == entries[..n];
      UntargetedKept(identity, entries, n + 1, secrets, slot);
    }
  }

  /** In a valid manifest no later entry writes the source of an earlier one, even
      if the target instance bears the name of a legacy service. */
  lemma SourcesAreSettled(identity: string, source: string, entries: seq<Entry>, i: nat, j: nat)
    requires ValidManifest(identity, source, entries) && i < j < |entries|
    ensures Target(identity, entries[j]) != Source(entries[i])
  {
    var a, b := entries[i], entries[j];
    assert ValidEntry(source, a) && ValidEntry(source, b);
    NeighboursOrderAll(entries, i, j);
    AiTarget(source, b);
    TargetWithoutDot(source, b);
    if a.sourceService != source && a.sourceService != LEGACY_AI_SERVICE {
      LoginHasNoDot(a.sourceAccount);
    }
  }

  lemma LoginHasNoDot(login: string)
    requires ValidLogin(login)
    ensures '.' !in login
  {}

  lemma TargetWithoutDot(source: string, e: Entry)
    requires ValidEntry(source, e)
    ensures '.' in e.targetKey || e.targetKey == AI_TARGET
  {
    assert GITHUB_TARGET[6] == '.' && AGENTKIT[8] == '.';
    if e.sourceService == source { assert e.targetKey[8] == AGENTKIT[8]; }
  }

  lemma AiTarget(source: string, e: Entry)
    requires ValidEntry(source, e)
    ensures e.targetKey == AI_TARGET ==>
              e.sourceService == LEGACY_AI_SERVICE && e.sourceAccount == LEGACY_AI_ACCOUNT
  {
    assert AI_TARGET[1] == 's' && AGENTKIT[1] == 'g' && GITHUB_TARGET[1] == 'i';
    if e.sourceService == source { assert e.targetKey[1] == AGENTKIT[1]; }
  }

  /** From its own entry on, an import leaves the source of an entry alone. */
  lemma SourceKept(identity: string, source: string, entries: seq<Entry>, i: nat, secrets: Secrets)
    requires ValidManifest(identity, source, entries) && i < |entries|
    ensures At(After(identity, entries, secrets), Source(entries[i])) ==
            At(After(identity, entries[..i + 1], secrets), Source(entries[i]))
  {
    forall j | i + 1 <= j < |entries| ensures Target(identity, entries[j]) != Source(entries[i]) {
      SourcesAreSettled(identity, source, entries, i, j);
    }
    UntargetedKept(identity, entries, i + 1, secrets, Source(entries[i]));
  }

  // ----- What is stored and available in the end -----

  lemma StartsVisible(s: string)
    requires s != "" && !IsWhitespace(s[0])
    ensures !Blank(s)
  {
    BlankExactly(s);
    assert s[0] in s;
  }

  lemma EntryNotBlank(source: string, e: Entry)
    requires ValidEntry(source, e)
    ensures !Blank(e.sourceAccount) && !Blank(e.targetKey)
  {
    assert AGENTKIT[0] == 'a' && AI_TARGET[0] == 'a' && GITHUB_TARGET[0] == 'g' && LEGACY_AI_ACCOUNT[0] == 'a';
    if e.sourceService == source { assert e.targetKey[0] == AGENTKIT[0]; }
    StartsVisible(e.targetKey);
    StartsVisible(e.sourceAccount);
  }

  /** An entry succeeds exactly if its two slots agree in the end. */
  lemma SucceedsExactly(identity: string, source: string, entries: seq<Entry>, i: nat, secrets: Secrets)
    requires ValidManifest(identity, source, entries) && i < |entries|
    ensures var final, e := After(identity, entries, secrets), entries[i];
            && (Source(e) in final ==> Target(identity, e) in final)
            && (!Verdicts(identity, entries, secrets)[i].Failed? <==>
                  Source(e) in final && Target(identity, e) in final && final[Source(e)] == final[Target(identity, e)])
  {
    VerdictAt(identity, entries, i, secrets);
    AfterStep(identity, entries, i, secrets);
    PrefixExtends(identity, entries, i + 1, secrets);
    SourceKept(identity, source, entries, i, secrets);
    EntryNotBlank(source, entries[i]);
  }

  lemma {:induction false} TakenPositions(entries: seq<Entry>, vs: seq<Verdict>) returns (taken: seq<nat>)
    requires |entries| == |vs|
    ensures Positions(taken, |vs|) && |taken| == |Tally(entries, vs).available|
    ensures forall k :: 0 <= k < |taken| ==> Tally(entries, vs).available[k] == entries[taken[k]].targetKey
    ensures forall i :: 0 <= i < |vs| ==> (i in taken <==> !vs[i].Failed?)
  {
    taken := [];
    if vs != [] {
      var n := |vs| - 1;
      taken := TakenPositions(entries[..n], vs[..n]);
      assert forall k :: 0 <= k < |taken| ==> taken[k] in taken;
      if !vs[n].Failed? { taken := taken + [n]; }
    }
  }

  lemma AvailableExactly(identity: string, source: string, entries: seq<Entry>, secrets: Secrets)
    returns (taken: seq<nat>)
    requires ValidManifest(identity, source, entries)
    ensures var final := After(identity, entries, secrets);
            var available := Tally(entries, Verdicts(identity, entries, secrets)).available;
            && Positions(taken, |entries|) && |taken| == |available|
            && (forall k :: 0 <= k < |taken| ==> available[k] == entries[taken[k]].targetKey)
            && forall i :: 0 <= i < |entries| ==>
                 (i in taken <==>
                    Source(entries[i]) in final && Target(identity, entries[i]) in final &&
                    final[Source(entries[i])] == final[Target(identity, entries[i])])
  {
    taken := TakenPositions(entries, Verdicts(identity, entries, secrets));
    forall i | 0 <= i < |entries| { SucceedsExactly(identity, source, entries, i, secrets); }
  }

  /** A new slot was stored from the source of an entry. */
  lemma {:induction false} StoredFrom(identity: string, entries: seq<Entry>, n: nat, secrets: Secrets, slot: Slot)
    returns (j: nat)
    requires n <= |entries| && slot in After(identity, entries[..n], secrets) && slot !in secrets
    ensures j < n && Target(identity, entries[j]) == slot
    ensures Source(entries[j]) in After(identity, entries[..j + 1], secrets)
  {
    AfterStep(identity, entries, n - 1, secrets);
    if slot in After(identity, entries[..n - 1], secrets) {
      j := StoredFrom(identity, entries, n - 1, secrets, slot);
    } else {
      j := n - 1;
    }
  }

  /** A free target gets the secret of its first entry whose source exists. */
  lemma FirstIsStored(identity: string, source: string, entries: seq<Entry>, i: nat, secrets: Secrets)
    requires ValidManifest(identity, source, entries) && i < |entries|
    requires Target(identity, entries[i]) !in secrets && Source(entries[i]) in After(identity, entries, secrets)
    requires forall j :: 0 <= j < i && entries[j].targetKey == entries[i].targetKey ==>
               Source(entries[j]) !in After(identity, entries, secrets)
    ensures var final := After(identity, entries, secrets);
            Target(identity, entries[i]) in final && final[Target(identity, entries[i])] == final[Source(entries[i])]
  {
    if Target(identity, entries[i]) in After(identity, entries[..i], secrets) {
      var j := StoredFrom(identity, entries, i, secrets, Target(identity, entries[i]));
      PrefixExtends(identity, entries, j + 1, secrets);
      assert false;
    }
    AfterStep(identity, entries, i, secrets);
    PrefixExtends(identity, entries, i + 1, secrets);
    SourceKept(identity, source, entries, i, secrets);
    EntryNotBlank(source, entries[i]);
  }

  lemma AllStored(identity: string, source: string, entries: seq<Entry>, secrets: Secrets)
    requires ValidManifest(identity, source, entries)
    ensures var final := After(identity, entries, secrets);
            forall i :: 0 <= i < |entries| ==>
              var e := entries[i];
              Source(e) in final ==>
                && Target(identity, e) in final
                && (Target(identity, e) !in secrets &&
                    (forall j :: 0 <= j < i && entries[j].targetKey == e.targetKey ==> Source(entries[j]) !in final) ==>
                      final[Target(identity, e)] == final[Source(e)])
  {
    var final := After(identity, entries, secrets);
    forall i | 0 <= i < |entries| && Source(entries[i]) in final
      ensures Target(identity, entries[i]) in final
      ensures Target(identity, entries[i]) !in secrets &&
              (forall j :: 0 <= j < i && entries[j].targetKey == entries[i].targetKey ==>
                 Source(entries[j]) !in final) ==>
                final[Target(identity, entries[i])] == final[Source(entries[i])]
    {
      SucceedsExactly(identity, source, entries, i, secrets);
      if Target(identity, entries[i]) !in secrets &&
         forall j :: 0 <= j < i && entries[j].targetKey == entries[i].targetKey ==> Source(entries[j]) !in final {
        FirstIsStored(identity, source, entries, i, secrets);
      }
    }
  }

  /** As many entries are imported as slots are new. */
  lemma {:induction false} ImportedAreNew(identity: string, entries: seq<Entry>, secrets: Secrets)
    ensures Extends(secrets, After(identity, entries, secrets))
    ensures Tally(entries, Verdicts(identity, entries, secrets)).imported ==
            |After(identity, entries, secrets).Keys - secrets.Keys|
  {
    if entries == [] {
      assert secrets.Keys - secrets.Keys == {};
    } else {
      var init, e := entries[..|entries| - 1], entries[|entries| - 1];
      var vs := Verdicts(identity, entries, secrets);
      ImportedAreNew(identity, init, secrets);
      assert vs[..|vs| - 1] == Verdicts(identity, init, secrets);
      OneMoreNew(identity, e, After(identity, init, secrets), secrets);
    }
  }

  lemma OneMoreNew(identity: string, e: Entry, before: Secrets, secrets: Secrets)
    requires Extends(secrets, before)
    ensures Extends(secrets, AfterOne(identity, e, before))
    ensures |AfterOne(identity, e, before).Keys - secrets.Keys| ==
            |before.Keys - secrets.Keys| + if VerdictFor(identity, e, before).Imported? then 1 else 0
  {
    if VerdictFor(identity, e, before).Imported? {
      OneMoreSlot(secrets, before, Target(identity, e), before[Source(e)]);
    }
  }

  lemma OneMoreSlot(secrets: Secrets, before: Secrets, slot: Slot, secret: Secret)
    requires Extends(secrets, before) && slot !in before
    ensures Extends(secrets, before[slot := secret])
    ensures |before[slot := secret].Keys - secrets.Keys| == |before.Keys - secrets.Keys| + 1
  {
    assert before[slot := secret].Keys == before.Keys + {slot};
    SetGrows(before.Keys, secrets.Keys, slot);
  }

  lemma SetGrows<T>(now: set<T>, earlier: set<T>, x: T)
    requires x !in now && x !in earlier
    ensures |(now + {x}) - earlier| == |now - earlier| + 1
  {
    assert (now + {x}) - earlier == (now - earlier) + {x};
  }

  function Again(v: Verdict): Verdict { if v.Failed? then Failed else Skipped }

  /** After an import, every entry is skipped if it succeeded and fails again if it
      failed. */
  lemma VerdictAgain(identity: string, source: string, entries: seq<Entry>, i: nat, secrets: Secrets)
    requires ValidManifest(identity, source, entries) && i < |entries|
    ensures VerdictFor(identity, entries[i], After(identity, entries, secrets)) ==
            Again(Verdicts(identity, entries, secrets)[i])
  {
    var e, before := entries[i], After(identity, entries[..i], secrets);
    AfterStep(identity, entries, i, secrets);
    VerdictAt(identity, entries, i, secrets);
    PrefixExtends(identity, entries, i + 1, secrets);
    SourceKept(identity, source, entries, i, secrets);
  }

  lemma {:induction false} VerdictAt(identity: string, entries: seq<Entry>, i: nat, secrets: Secrets)
    requires i < |entries|
    ensures Verdicts(identity, entries, secrets)[i] ==
            VerdictFor(identity, entries[i], After(identity, entries[..i], secrets))
  {
    var init := entries[..|entries| - 1];
    if i < |init| {
      assert init[..i] == entries[..i];
      VerdictAt(identity, init, i, secrets);
      assert Verdicts(identity, entries, secrets)[i] == Verdicts(identity, init, secrets)[i];
    } else {
      assert init == entries[..i];
    }
  }

  lemma {:induction false} RerunStays(identity: string, entries: seq<Entry>, n: nat, final: Secrets)
    requires n <= |entries|
    requires forall i :: 0 <= i < |entries| ==> VerdictFor(identity, entries[i], final) != Imported
    ensures After(identity, entries[..n], final) == final
  {
    if n > 0 {
      RerunStays(identity, entries, n - 1, final);
      assert entries[..n] == entries[..n - 1] + [entries[n - 1]];
    }
  }

  lemma {:induction false} TallyAgain(entries: seq<Entry>, vs: seq<Verdict>, ws: seq<Verdict>)
    requires |entries| == |vs| == |ws| && forall i :: 0 <= i < |vs| ==> ws[i] == Again(vs[i])
    ensures var r, s := Tally(entries, vs), Tally(entries, ws);
            s == Report(0, r.imported + r.skipped, r.failed, r.available)
  {
    if vs != [] {
      TallyAgain(entries[..|vs| - 1], vs[..|vs| - 1], ws[..|vs| - 1]);
    }
  }

  /** On a keyring without failures, importing a second time stores nothing, skips
      what the first import imported or skipped, and reports the same failures and
      the same available keys. */
  lemma ImportIsIdempotent(identity: string, source: string, entries: seq<Entry>, secrets: Secrets)
    requires ValidManifest(identity, source, entries)
    ensures var final := After(identity, entries, secrets);
            var r := Tally(entries, Verdicts(identity, entries, secrets));
            && After(identity, entries, final) == final
            && Tally(entries, Verdicts(identity, entries, final)) ==
                 Report(0, r.imported + r.skipped, r.failed, r.available)
  {
    assert entries[..|entries|] == entries;
    var final := After(identity, entries, secrets);
    forall i | 0 <= i < |entries|
      ensures VerdictFor(identity, entries[i], final) == Again(Verdicts(identity, entries, secrets)[i])
    {
      VerdictAgain(identity, source, entries, i, secrets);
    }
    RerunStays(identity, entries, |entries|, final);
    forall i | 0 <= i < |entries|
      ensures Verdicts(identity, entries, final)[i] == Again(Verdicts(identity, entries, secrets)[i])
    {
      RerunStays(identity, entries, i, final);
      VerdictAt(identity, entries, i, final);
    }
    TallyAgain(entries, Verdicts(identity, entries, secrets), Verdicts(identity, entries, final));
  }
}
