/** The pre-tool hook: evaluate a file access, apply the consult mandate, escalate over
    several sites, and format the platform's answer. */
module HookDecide {
  import opened Common
  import opened JsonText

  datatype Variant =
    | ClaudePreRead | ClaudePreEdit | ClaudePreBash
    | CodexPreBash | CodexPostBash | CodexPreApplyPatch | ClaudePostMemGet

  datatype Decision =
    | Allow
    | Deny(fileKey: string, reason: string)
    | AlreadyConsulted(context: string)
    | Advisory(context: string)
    | Liability(context: string)
    | Tombstone
    | NoRecord
    | NotFileRead

  datatype Event =
    | Hit(key: string) | Miss(key: string) | BlockedUnconsultedRead(key: string) | CodexShellBlocked(key: string)
    | ComplianceHit(key: string) | EditConsulted(key: string) | EditBlocked(key: string)
    | FloorConsultBlocked(key: string)

  /** The fields of a stored file record that matter for enforcement. */
  datatype FileRecord = FileRecord(confidence: real, quality: real, staleness: real, tier: string,
    gotchaKeys: seq<string>)

  datatype Gotcha = Gotcha(confirmed: bool, confidence: real, quality: real, rule: string)

  /** A JSON value that should be an object of type T. */
  datatype Json<T> = NotAnObject | Object(value: T)

  /** The daemon's answer for one file. */
  datatype EvalData = EvalData(
    consulted: bool, consultedRecent: bool,
    record: Option<Json<FileRecord>>, gotchas: map<string, Json<Gotcha>>,
    storeError: bool, gotchaError: bool)

  /** Human-readable texts, left to the caller. */
  datatype Wording = Wording(
    denyReason: (string, FileRecord) -> string,
    context: (string, FileRecord, seq<string>) -> string,
    liability: (string, FileRecord) -> string,
    mandateReason: string -> string)

  datatype Adapter = Adapter(stdout: string, stderr: string, exitCode: int, events: seq<Event>, decision: Decision)

  const MAX_APPLY_PATCH_FILES: nat := 50

  // ----- Deciding one file

  predicate Injectable(g: Json<Gotcha>) {
    g.Object? && g.value.confirmed && g.value.confidence >= 0.6 && g.value.quality >= 0.4
  }

  /** Whether some attached gotcha is confirmed and trusted enough to block. */
  function DenySignal(keys: seq<string>, gotchas: map<string, Json<Gotcha>>): bool {
    keys != [] && ((keys[0] in gotchas && Injectable(gotchas[keys[0]])) || DenySignal(keys[1..], gotchas))
  }

  /** The rules of those gotchas, in attachment order. */
  function InjectedRules(keys: seq<string>, gotchas: map<string, Json<Gotcha>>): seq<string> {
    if keys == [] then []
    else
      (if keys[0] in gotchas && Injectable(gotchas[keys[0]]) && gotchas[keys[0]].value.rule != ""
       then [gotchas[keys[0]].value.rule]
       else [])
      + InjectedRules(keys[1..], gotchas)
  }

  function Evaluate(words: Wording, path: string, record: Option<Json<FileRecord>>, gotchas: map<string, Json<Gotcha>>,
                    consulted: bool): (Decision, seq<Event>) {
    var key := FileKey(path);
    if record.None? || record.value.NotAnObject? then (NoRecord, [Miss(key)])
    else
      var rec := record.value.value;
      if rec.tier == "tombstone" then (Tombstone, [])
      else if rec.tier == "liability" then (Liability(words.liability(path, rec)), [Hit(key)])
      else
        var context := words.context(path, rec, InjectedRules(rec.gotchaKeys, gotchas));
        if DenySignal(rec.gotchaKeys, gotchas) then
          if consulted then (AlreadyConsulted(context), [ComplianceHit(key)])
          else (Deny(key, words.denyReason(path, rec)), [BlockedUnconsultedRead(key)])
        else if rec.confidence >= 0.3 && rec.quality >= 0.4 then (Advisory(context), [Hit(key)])
        else (Allow, [])
  }

  predicate CodexGate(v: Variant) {
    v == CodexPreBash || v == CodexPreApplyPatch
  }

  function PlatformEvent(v: Variant, d: Decision, e: Event): seq<Event> {
    if CodexGate(v) then
      match e
      case BlockedUnconsultedRead(key) => [CodexShellBlocked(key)]
      case Hit(_) => if d.Advisory? || d.Liability? then [] else [e]
      case ComplianceHit(_) => []
      case _ => [e]
    else if v == ClaudePreEdit then
      match e
      case BlockedUnconsultedRead(key) => [EditBlocked(key)]
      case FloorConsultBlocked(_) => [e]
      case ComplianceHit(key) => [EditConsulted(key)]
      case _ => []
    else [e]
  }

  function PlatformEvents(v: Variant, d: Decision, events: seq<Event>): seq<Event> {
    if events == [] then [] else PlatformEvent(v, d, events[0]) + PlatformEvents(v, d, events[1..])
  }

  // ----- Output

  const HEAD: string := "{\"hookSpecificOutput\":{\"hookEventName\":\"PreToolUse\",\"permissionDecision\":\""
  const DENY_REASON: string := "deny\",\"permissionDecisionReason\":\""
  const ALLOW_CONTEXT: string := "allow\",\"additionalContext\":\""
  const ALLOW_ONLY: string := "allow\"}}"
  const TAIL: string := "}}"

  /** Replace every `c` by `r`. */
  function Replace(s: string, c: char, r: string): string {
    if s == [] then [] else (if s[0] == c then r else [s[0]]) + Replace(s[1..], c, r)
  }

  /** The hook's escaper: five replacements, one after the other. */
  function EscapeJson(s: string): string {
    Replace(Replace(Replace(Replace(Replace(s, '\\', "\\\\"), '"', "\\\""), '\n', "\\n"), '\r', "\\r"), '\t', "\\t")
  }

  function DenyOutput(reason: string): string {
    HEAD + (DENY_REASON + (EscapeJson(reason) + QUOTE + TAIL))
  }

  function ContextOutput(context: string): string {
    HEAD + (ALLOW_CONTEXT + (EscapeJson(context) + QUOTE + TAIL))
  }

  const ALLOW_OUTPUT: string := HEAD + ALLOW_ONLY

  function ClaudeOutput(d: Decision): string {
    match d
    case Deny(_, reason) => DenyOutput(reason)
    case AlreadyConsulted(context) => ContextOutput("[mati] Record already consulted. " + context)
    case Advisory(context) => ContextOutput("[mati] " + context)
    case Liability(context) => ContextOutput("[mati] " + context)
    case _ => ALLOW_OUTPUT
  }

  /** Standard output, standard error and exit code for a decision. */
  function Format(v: Variant, d: Decision): (string, string, int) {
    match v
    case ClaudePreRead => (ClaudeOutput(d), "", 0)
    case ClaudePreBash => (ClaudeOutput(d), "", 0)
    case ClaudePreEdit => if d.Deny? then (DenyOutput(d.reason), "", 0) else ("", "", 0)
    case CodexPreBash => if d.Deny? then ("", "mati: call mem_get(\"" + d.fileKey + "\") first", 2) else ("", "", 0)
    case CodexPreApplyPatch =>
      if d.Deny? then ("", "mati: call mem_get(\"" + d.fileKey + "\") first", 2) else ("", "", 0)
    case CodexPostBash => ("", "", 0)
    case ClaudePostMemGet => ("", "", 0)
  }

  /** What is printed when enforcement is bypassed. */
  function AllowOutput(v: Variant): string {
    if v == ClaudePreRead || v == ClaudePreBash then ALLOW_OUTPUT else ""
  }

  function FailedOpen(v: Variant): Adapter {
    Adapter(AllowOutput(v), "", 0, [], Allow)
  }

  predicate RecentOnly(v: Variant) {
    v in {CodexPreBash, CodexPostBash, CodexPreApplyPatch, ClaudePreEdit, ClaudePostMemGet}
  }

  predicate MustFailOpen(data: EvalData) {
    (data.storeError && data.record.None?) || data.gotchaError
  }

  function Adapted(v: Variant, d: Decision, events: seq<Event>): Adapter {
    var out := Format(v, d);
    Adapter(out.0, out.1, out.2, PlatformEvents(v, d, events), d)
  }

  function Process(words: Wording, v: Variant, path: string, data: EvalData): Adapter {
    if MustFailOpen(data) then FailedOpen(v)
    else
      var consulted := if RecentOnly(v) then data.consultedRecent else data.consulted;
      var result := Evaluate(words, path, data.record, data.gotchas, consulted);
      Adapted(v, result.0, result.1)
  }

  // ----- The consult mandate and the chain of sites

  predicate IncludeRecent(v: Variant) {
    v == CodexPreBash || v == ClaudePreEdit
  }

  function ConsultedFlag(v: Variant, data: EvalData): bool {
    if IncludeRecent(v) then data.consultedRecent else data.consulted
  }

  /** Escalate to a deny when the path is under a mandated glob and was not consulted. */
  function Mandated(words: Wording, a: Adapter, v: Variant, path: string, consulted: bool,
                    globs: Option<string -> bool>): Adapter {
    if globs.None? || consulted || a.decision.Deny? || !globs.value(path) then a
    else Adapted(v, Deny(FileKey(path), words.mandateReason(path)), [FloorConsultBlocked(FileKey(path))])
  }

  /** One evaluation site: process the daemon's answer, then apply the mandate. */
  function Site(words: Wording, v: Variant, path: string, data: EvalData, globs: Option<string -> bool>): Adapter {
    Mandated(words, Process(words, v, path, data), v, path, ConsultedFlag(v, data), globs)
  }

  predicate MultiFile(v: Variant) {
    v == ClaudePreBash || v == CodexPreBash
  }

  /** The sites of a list of paths, in order, skipping those without one. */
  function Collect(siteOf: string -> Option<Adapter>, paths: seq<string>): seq<Adapter> {
    if paths == [] then []
    else (if siteOf(paths[0]).Some? then [siteOf(paths[0]).value] else []) + Collect(siteOf, paths[1..])
  }

  /** The site of a further file of a shell command, unless it is the primary file or the
      daemon does not answer for it. */
  function ExtraSite(words: Wording, v: Variant, primary: string, daemon: string -> Option<EvalData>,
                     globs: Option<string -> bool>): string -> Option<Adapter> {
    p => if p != primary && daemon(p).Some? then Some(Site(words, v, p, daemon(p).value, globs)) else None
  }

  function Capped(paths: seq<string>): seq<string> {
    if |paths| <= MAX_APPLY_PATCH_FILES then paths else paths[..MAX_APPLY_PATCH_FILES]
  }

  /** The site of the symlink target, when there is one and the daemon answers for it. */
  function CanonicalSite(words: Wording, v: Variant, canonical: Option<string>, daemon: string -> Option<EvalData>,
                         globs: Option<string -> bool>): seq<Adapter> {
    if canonical.Some? && daemon(canonical.value).Some?
    then [Site(words, v, canonical.value, daemon(canonical.value).value, globs)]
    else []
  }

  function FurtherSites(words: Wording, v: Variant, path: string, extras: seq<string>,
                        daemon: string -> Option<EvalData>, globs: Option<string -> bool>): seq<Adapter> {
    if MultiFile(v) then Collect(ExtraSite(words, v, path, daemon, globs), Capped(extras)) else []
  }

  /** All sites in order: the lexical path, the symlink target, the further files. */
  function Sites(words: Wording, v: Variant, path: string, lexical: EvalData, canonical: Option<string>,
                 extras: seq<string>, daemon: string -> Option<EvalData>, globs: Option<string -> bool>): seq<Adapter> {
    [Site(words, v, path, lexical, globs)] + CanonicalSite(words, v, canonical, daemon, globs)
    + FurtherSites(words, v, path, extras, daemon, globs)
  }

  /** `r` is the first denying site, or the lexical site when none denies. */
  ghost predicate FirstDenyOrLexical(sites: seq<Adapter>, r: Adapter) {
    && sites != []
    && ((forall i :: 0 <= i < |sites| ==> !sites[i].decision.Deny?) ==> r == sites[0])
    && (forall k ::
          0 <= k < |sites| && sites[k].decision.Deny? && (forall i :: 0 <= i < k ==> !sites[i].decision.Deny?) ==>
          r == sites[k])
  }

  /** `deny` is the first denying site, if there is one. */
  ghost predicate FirstDeny(sites: seq<Adapter>, deny: Option<Adapter>) {
    && (deny.None? ==> forall i :: 0 <= i < |sites| ==> !sites[i].decision.Deny?)
    && (deny.Some? ==> exists k :: 0 <= k < |sites| && sites[k] == deny.value && deny.value.decision.Deny?
                         && forall i :: 0 <= i < k ==> !sites[i].decision.Deny?)
  }

  /** Look at the further files until one denies. */
  method ScanExtras(siteOf: string -> Option<Adapter>, extras: seq<string>) returns (deny: Option<Adapter>)
    ensures FirstDeny(Collect(siteOf, extras), deny)
  {
    ghost var sites := Collect(siteOf, extras);
    ghost var seen: seq<Adapter> := [];
    assert extras[0..] == extras;
    for n := 0 to |extras|
      invariant sites == seen + Collect(siteOf, extras[n..])
      invariant forall i :: 0 <= i < |seen| ==> !seen[i].decision.Deny?
    {
      assert extras[n..][1..] == extras[n + 1..] && extras[n..][0] == extras[n];
      var answer := siteOf(extras[n]);
      if answer.Some? {
        var site := answer.value;
        ghost var rest := Collect(siteOf, extras[n + 1..]);
        assert sites == seen + ([site] + rest) == (seen + [site]) + rest;
        if site.decision.Deny? {
          assert sites[|seen|] == site;
          return Some(site);
        }
        seen := seen + [site];
      }
    }
    assert extras[|extras|..] == [];
    assert sites == seen;
    deny := None;
  }

  /** The front sites do not deny, so the first deny is among the further ones. */
  lemma EscalateLater(front: seq<Adapter>, more: seq<Adapter>, deny: Option<Adapter>)
    requires front != [] && (forall i :: 0 <= i < |front| ==> !front[i].decision.Deny?) && FirstDeny(more, deny)
    ensures FirstDenyOrLexical(front + more, if deny.Some? then deny.value else front[0])
  {
    var sites := front + more;
    assert forall i :: 0 <= i < |more| ==> sites[|front| + i] == more[i];
    if deny.Some? {
      var k :| 0 <= k < |more| && more[k] == deny.value && forall i :: 0 <= i < k ==> !more[i].decision.Deny?;
      assert sites[|front| + k] == deny.value;
    }
  }

  lemma DenyInFront(front: seq<Adapter>, more: seq<Adapter>, k: nat)
    requires k < |front| && front[k].decision.Deny? && forall i :: 0 <= i < k ==> !front[i].decision.Deny?
    ensures FirstDenyOrLexical(front + more, front[k])
  {
    assert (front + more)[k] == front[k];
  }

  /** The single-path gate: adopt the first denying site, otherwise keep the lexical result with
      its events and output untouched; bypass when the daemon does not answer. */
  method Gate(words: Wording, v: Variant, path: string, canonical: Option<string>, extras: seq<string>,
              daemon: string -> Option<EvalData>, globs: Option<string -> bool>) returns (r: Adapter)
    ensures daemon(path).None? ==> r == FailedOpen(v)
    ensures daemon(path).Some? ==>
      FirstDenyOrLexical(Sites(words, v, path, daemon(path).value, canonical, extras, daemon, globs), r)
  {
    var answer := daemon(path);
    if answer.None? {
      return FailedOpen(v);
    }
    r := Site(words, v, path, answer.value, globs);
    ghost var front := [r] + CanonicalSite(words, v, canonical, daemon, globs);
    ghost var more := FurtherSites(words, v, path, extras, daemon, globs);
    if r.decision.Deny? {
      DenyInFront(front, more, 0);
      return;
    }
    if canonical.Some? {
      var target := daemon(canonical.value);
      if target.Some? {
        var site := Site(words, v, canonical.value, target.value, globs);
        if site.decision.Deny? {
          DenyInFront(front, more, 1);
          return site;
        }
      }
    }
    var deny := None;
    if MultiFile(v) {
      deny := ScanExtras(ExtraSite(words, v, path, daemon, globs), Capped(extras));
    }
    EscalateLater(front, more, deny);
    if deny.Some? {
      r := deny.value;
    }
  }

  /** A patch target with its evaluation; patches are not subject to the mandate. */
  function PatchSite(words: Wording, daemon: string -> Option<EvalData>): string -> Option<Adapter> {
    p => if daemon(p).Some? then Some(Process(words, CodexPreApplyPatch, p, daemon(p).value)) else None
  }

  predicate Denies(site: Option<Adapter>) {
    site.Some? && site.value.decision.Deny?
  }

  /** The keys of the denying files, in patch order. */
  function DeniedKeys(siteOf: string -> Option<Adapter>, paths: seq<string>): seq<string> {
    if paths == [] then []
    else (if Denies(siteOf(paths[0])) then [FileKey(paths[0])] else []) + DeniedKeys(siteOf, paths[1..])
  }

  /** Evaluate every file and collect the denied ones with their events. */
  method CollectDenied(siteOf: string -> Option<Adapter>, paths: seq<string>)
    returns (denied: seq<string>, events: seq<Event>)
    requires forall p :: Denies(siteOf(p)) ==> siteOf(p).value.events == [CodexShellBlocked(FileKey(p))]
    ensures denied == DeniedKeys(siteOf, paths)
    ensures |events| == |denied| && forall i :: 0 <= i < |denied| ==> events[i] == CodexShellBlocked(denied[i])
  {
    denied, events := [], [];
    assert paths[0..] == paths;
    for n := 0 to |paths|
      invariant DeniedKeys(siteOf, paths) == denied + DeniedKeys(siteOf, paths[n..])
      invariant |events| == |denied| && forall i :: 0 <= i < |denied| ==> events[i] == CodexShellBlocked(denied[i])
    {
      assert paths[n..][1..] == paths[n + 1..] && paths[n..][0] == paths[n];
      var site := siteOf(paths[n]);
      if Denies(site) {
        denied := denied + [FileKey(paths[n])];
        events := events + site.value.events;
      }
    }
    assert paths[|paths|..] == [];
  }

  /** The edit gate for patches: of the first fifty files, exactly those whose evaluation denies
      are reported, each with one audit event, and the patch is blocked if there is any. */
  method ApplyPatchGate(words: Wording, paths: seq<string>, daemon: string -> Option<EvalData>)
    returns (denied: seq<string>, events: seq<Event>, exitCode: int)
    ensures denied == DeniedKeys(PatchSite(words, daemon), Capped(paths))
    ensures |events| == |denied| && forall i :: 0 <= i < |denied| ==> events[i] == CodexShellBlocked(denied[i])
    ensures exitCode == if denied == [] then 0 else 2
  {
    var siteOf := PatchSite(words, daemon);
    forall p | Denies(siteOf(p)) ensures siteOf(p).value.events == [CodexShellBlocked(FileKey(p))] {
      ProcessReports(words, CodexPreApplyPatch, p, daemon(p).value);
    }
    denied, events := CollectDenied(siteOf, Capped(paths));
    exitCode := if denied == [] then 0 else 2;
  }

  lemma FirstDenying(sites: seq<Adapter>, j: nat) returns (k: nat)
    requires j < |sites| && sites[j].decision.Deny?
    ensures k < |sites| && sites[k].decision.Deny? && forall i :: 0 <= i < k ==> !sites[i].decision.Deny?
  {
    k := 0;
    while !sites[k].decision.Deny?
      invariant k <= j && forall i :: 0 <= i < k ==> !sites[i].decision.Deny?
      decreases j - k
    {
      k := k + 1;
    }
  }

  /** Escalation only: the gate denies exactly when some site does, and otherwise its answer is
      the lexical one. */
  lemma EscalatesOnly(sites: seq<Adapter>, r: Adapter)
    requires FirstDenyOrLexical(sites, r)
    ensures r.decision.Deny? <==> exists i :: 0 <= i < |sites| && sites[i].decision.Deny?
    ensures !r.decision.Deny? ==> r == sites[0]
  {
    if j: nat :| j < |sites| && sites[j].decision.Deny? {
      var k := FirstDenying(sites, j);
    }
  }

  // ----- When a site denies, and what it leaves behind

  /** A stored gotcha that is confirmed, with a confidence of at least 0.6 and a quality of at least 0.4. */
  ghost predicate Trusted(gotchas: map<string, Json<Gotcha>>, k: string) {
    && k in gotchas && gotchas[k].Object?
    && gotchas[k].value.confirmed && gotchas[k].value.confidence >= 0.6 && gotchas[k].value.quality >= 0.4
  }

  /** The record blocks an actor who has not consulted it: it is neither tombstoned nor a liability,
      and a trusted gotcha is attached to it. */
  ghost predicate RecordBlocks(record: Option<Json<FileRecord>>, gotchas: map<string, Json<Gotcha>>) {
    && record.Some? && record.value.Object?
    && record.value.value.tier != "tombstone" && record.value.value.tier != "liability"
    && exists k :: k in record.value.value.gotchaKeys && Trusted(gotchas, k)
  }

  ghost predicate Blocking(data: EvalData) {
    RecordBlocks(data.record, data.gotchas)
  }

  lemma {:induction false} DenySignalMeans(keys: seq<string>, gotchas: map<string, Json<Gotcha>>)
    ensures DenySignal(keys, gotchas) <==> exists k :: k in keys && Trusted(gotchas, k)
  {
    if keys == [] {
    } else {
      DenySignalMeans(keys[1..], gotchas);
      assert keys == [keys[0]] + keys[1..];
      assert Trusted(gotchas, keys[0]) <==> keys[0] in gotchas && Injectable(gotchas[keys[0]]);
    }
  }

  predicate SinglePath(v: Variant) {
    v in {ClaudePreRead, ClaudePreEdit, ClaudePreBash, CodexPreBash}
  }

  lemma EvaluateDenies(words: Wording, path: string, record: Option<Json<FileRecord>>,
                       gotchas: map<string, Json<Gotcha>>, consulted: bool)
    ensures Evaluate(words, path, record, gotchas, consulted).0.Deny? <==> RecordBlocks(record, gotchas) && !consulted
  {
    if record.Some? && record.value.Object? {
      DenySignalMeans(record.value.value.gotchaKeys, gotchas);
    }
  }

  /** Evaluation denies exactly when the record blocks, the gotchas could be read and there is no
      receipt; edits, shell commands of Codex and patches need a recent one. */
  lemma ProcessDenies(words: Wording, v: Variant, path: string, data: EvalData)
    requires SinglePath(v) || v == CodexPreApplyPatch
    ensures Process(words, v, path, data).decision.Deny? <==>
      && !data.gotchaError && Blocking(data)
      && !(if v == ClaudePreRead || v == ClaudePreBash then data.consulted else data.consultedRecent)
  {
    var consulted := if RecentOnly(v) then data.consultedRecent else data.consulted;
    EvaluateDenies(words, path, data.record, data.gotchas, consulted);
  }

  /** Whether the actor holds the receipt that the gate asks for. */
  predicate HasReceipt(v: Variant, data: EvalData) {
    if v == ClaudePreEdit || v == CodexPreBash then data.consultedRecent else data.consulted
  }

  /** What should be denied: no receipt, and either a trusted record blocks, with the gotchas
      readable, or a mandated glob covers the path. */
  ghost predicate ShouldDeny(v: Variant, path: string, data: EvalData, globs: Option<string -> bool>) {
    !HasReceipt(v, data) && ((!data.gotchaError && Blocking(data)) || (globs.Some? && globs.value(path)))
  }

  /** A site denies exactly then. The mandate holds even when the store failed: it does not depend
      on the record. */
  lemma SiteDenies(words: Wording, v: Variant, path: string, data: EvalData, globs: Option<string -> bool>)
    requires SinglePath(v)
    ensures Site(words, v, path, data, globs).decision.Deny? <==> ShouldDeny(v, path, data, globs)
  {
    ProcessDenies(words, v, path, data);
  }

  /** A store error without a record, or unreadable gotchas, lets the access pass without an event. */
  lemma ErrorsPass(words: Wording, v: Variant, path: string, data: EvalData)
    requires (data.storeError && data.record.None?) || data.gotchaError
    ensures Process(words, v, path, data).decision == Allow && Process(words, v, path, data).events == []
  {
  }

  /** The event that records a block of `path`. */
  function BlockEvent(v: Variant, path: string, mandate: bool): Event {
    if mandate then FloorConsultBlocked(FileKey(path))
    else if CodexGate(v) then CodexShellBlocked(FileKey(path))
    else if v == ClaudePreEdit then EditBlocked(FileKey(path))
    else BlockedUnconsultedRead(FileKey(path))
  }

  lemma OneEvent(v: Variant, d: Decision, e: Event)
    ensures PlatformEvents(v, d, [e]) == PlatformEvent(v, d, e)
  {
    assert [e][1..] == [];
  }

  /** A decision comes with at most one event: a deny with the block of that very file, a hit
      only with an advisory or a liability. */
  ghost predicate Reported(path: string, d: Decision, events: seq<Event>) {
    && |events| <= 1
    && (d.Deny? ==> d.fileKey == FileKey(path) && events == [BlockedUnconsultedRead(FileKey(path))])
    && (|events| == 1 && events[0].Hit? ==> d.Advisory? || d.Liability?)
  }

  lemma EvaluateReports(words: Wording, path: string, record: Option<Json<FileRecord>>,
                        gotchas: map<string, Json<Gotcha>>, consulted: bool)
    ensures var r := Evaluate(words, path, record, gotchas, consulted); Reported(path, r.0, r.1)
  {
  }

  ghost predicate NoReceipt(events: seq<Event>) {
    forall i :: 0 <= i < |events| ==> !events[i].Hit? && !events[i].ComplianceHit?
  }

  lemma PlatformReports(v: Variant, path: string, d: Decision, events: seq<Event>)
    requires Reported(path, d, events)
    ensures d.Deny? ==> PlatformEvents(v, d, events) == [BlockEvent(v, path, false)]
    ensures CodexGate(v) ==> NoReceipt(PlatformEvents(v, d, events))
  {
    if events != [] {
      assert events == [events[0]];
      OneEvent(v, d, events[0]);
    }
  }

  lemma ProcessReports(words: Wording, v: Variant, path: string, data: EvalData)
    ensures var p := Process(words, v, path, data);
      && (p.decision.Deny? ==> p.decision.fileKey == FileKey(path) && p.events == [BlockEvent(v, path, false)])
      && (CodexGate(v) ==> NoReceipt(p.events))
  {
    if !MustFailOpen(data) {
      var consulted := if RecentOnly(v) then data.consultedRecent else data.consulted;
      EvaluateReports(words, path, data.record, data.gotchas, consulted);
      var result := Evaluate(words, path, data.record, data.gotchas, consulted);
      PlatformReports(v, path, result.0, result.1);
    }
  }

  /** Every deny leaves exactly one audit event, for the denied file and the right cause; and a
      Codex gate never mints a consultation receipt. */
  lemma BlocksAreAudited(words: Wording, v: Variant, path: string, data: EvalData, globs: Option<string -> bool>)
    requires SinglePath(v)
    ensures var site := Site(words, v, path, data, globs);
      && (site.decision.Deny? ==>
           && site.decision.fileKey == FileKey(path)
           && site.events == [BlockEvent(v, path, !Process(words, v, path, data).decision.Deny?)])
      && (CodexGate(v) ==> NoReceipt(site.events))
  {
    ProcessReports(words, v, path, data);
    OneEvent(v, Deny(FileKey(path), words.mandateReason(path)), FloorConsultBlocked(FileKey(path)));
  }

  // ----- The escaper

  /** The five replacements as one table. */
  function HookEscape(c: char): string {
    if c == '\\' then "\\\\"
    else if c == '"' then "\\\""
    else if c == '\n' then "\\n"
    else if c == '\r' then "\\r"
    else if c == '\t' then "\\t"
    else [c]
  }

  lemma {:induction false} ReplaceAppend(a: string, b: string, c: char, r: string)
    ensures Replace(a + b, c, r) == Replace(a, c, r) + Replace(b, c, r)
  {
    if a == [] {
      assert a + b == b;
    } else {
      assert (a + b)[1..] == a[1..] + b;
      ReplaceAppend(a[1..], b, c, r);
    }
  }

  lemma EscapeJsonAppend(a: string, b: string)
    ensures EscapeJson(a + b) == EscapeJson(a) + EscapeJson(b)
  {
    var a1, b1 := Replace(a, '\\', "\\\\"), Replace(b, '\\', "\\\\");
    ReplaceAppend(a, b, '\\', "\\\\");
    var a2, b2 := Replace(a1, '"', "\\\""), Replace(b1, '"', "\\\"");
    ReplaceAppend(a1, b1, '"', "\\\"");
    var a3, b3 := Replace(a2, '\n', "\\n"), Replace(b2, '\n', "\\n");
    ReplaceAppend(a2, b2, '\n', "\\n");
    var a4, b4 := Replace(a3, '\r', "\\r"), Replace(b3, '\r', "\\r");
    ReplaceAppend(a3, b3, '\r', "\\r");
    ReplaceAppend(a4, b4, '\t', "\\t");
  }

  lemma ReplaceTwo(x: char, y: char, c: char, r: string)
    requires x != c && y != c
    ensures Replace([x, y], c, r) == [x, y] && Replace([x], c, r) == [x]
  {
    assert [x, y][1..] == [y] && [y][1..] == [] && [x][1..] == [];
    assert Replace([y], c, r) == [y] + Replace([], c, r) == [y];
    assert Replace([x, y], c, r) == [x] + Replace([y], c, r);
  }

  lemma EscapeJsonOne(c: char)
    ensures EscapeJson([c]) == HookEscape(c)
  {
    assert [c][1..] == [];
    assert Replace([c], '\\', "\\\\") == if c == '\\' then "\\\\" else [c];
    assert Replace([c], '"', "\\\"") == if c == '"' then "\\\"" else [c];
    assert Replace([c], '\n', "\\n") == if c == '\n' then "\\n" else [c];
    assert Replace([c], '\r', "\\r") == if c == '\r' then "\\r" else [c];
    assert Replace([c], '\t', "\\t") == if c == '\t' then "\\t" else [c];
    forall x: char, y: char, d: char, r: string | x != d && y != d ensures Replace([x, y], d, r) == [x, y] {
      ReplaceTwo(x, y, d, r);
    }
  }

  /** The five sequential replacements equal one simultaneous escape. */
  lemma {:induction false} EscapeJsonIsSimultaneous(s: string)
    ensures EscapeJson(s) == EscapeWith(HookEscape, s)
  {
    if s == [] {
    } else {
      assert s == [s[0]] + s[1..];
      EscapeJsonAppend([s[0]], s[1..]);
      EscapeJsonOne(s[0]);
      EscapeJsonIsSimultaneous(s[1..]);
    }
  }

  /** A control character that the escaper leaves raw. */
  predicate LeftRaw(c: char) {
    IsControl(c) && c != '\n' && c != '\r' && c != '\t'
  }

  lemma HookDecodes(c: char)
    requires !LeftRaw(c)
    ensures Decodes(HookEscape(c), c)
  {
    if c == '\\' {
      DecodesShort('\\');
    } else if c == '"' {
      DecodesShort('"');
    } else if c == '\n' {
      DecodesShort('n');
    } else if c == '\r' {
      DecodesShort('r');
    } else if c == '\t' {
      DecodesShort('t');
    } else {
      DecodesRaw(c);
    }
  }

  /** A message embedded in the output is read back unchanged, and its literal ends exactly at
      the quote the hook wrote, if and only if it has no control character other than newline,
      carriage return and tab; otherwise the literal is not valid JSON. */
  lemma EscapedTextReadsBack(s: string, rest: string)
    ensures Clean(s) ==>
      ReadString(EscapeJson(s) + QUOTE + rest) == Some((s, rest))
    ensures !Clean(s) ==> ReadString(EscapeJson(s) + QUOTE + rest).None?
  {
    EscapeJsonIsSimultaneous(s);
    if exists i :: 0 <= i < |s| && LeftRaw(s[i]) {
      var k := FirstRaw(s);
      forall i | 0 <= i < |s[..k]| ensures Decodes(HookEscape(s[..k][i]), s[..k][i]) {
        HookDecodes(s[..k][i]);
      }
      RawControlFails(HookEscape, s, QUOTE + rest, k);
      assert EscapeWith(HookEscape, s) + (QUOTE + rest) == EscapeWith(HookEscape, s) + QUOTE + rest;
    } else {
      forall i | 0 <= i < |s| ensures Decodes(HookEscape(s[i]), s[i]) {
        HookDecodes(s[i]);
      }
      ReadBack(HookEscape, s, rest);
    }
  }

  /** A quote-aware scan reaches the end of the text: it meets no bare quote, and no backslash
      is left without the character it escapes. */
  predicate StaysInside(s: string) {
    s == [] ||
    (s[0] != '"' && (if s[0] == '\\' then |s| >= 2 && StaysInside(s[2..]) else StaysInside(s[1..])))
  }

  lemma {:induction false} StaysInsideAppend(a: string, b: string)
    requires StaysInside(a) && StaysInside(b)
    ensures StaysInside(a + b)
    decreases |a|
  {
    if a == [] {
      assert a + b == b;
    } else if a[0] == '\\' {
      StaysInsideAppend(a[2..], b);
      assert (a + b)[2..] == a[2..] + b;
    } else {
      StaysInsideAppend(a[1..], b);
      assert (a + b)[1..] == a[1..] + b;
    }
  }

  lemma OneStaysInside(c: char)
    ensures StaysInside(HookEscape(c))
  {
    var e := HookEscape(c);
    assert |e| == 2 ==> e[2..] == [];
    assert |e| == 1 ==> e[1..] == [];
  }

  lemma {:induction false} EscapeStaysInside(s: string)
    ensures StaysInside(EscapeWith(HookEscape, s))
  {
    if s == [] {
    } else {
      OneStaysInside(s[0]);
      EscapeStaysInside(s[1..]);
      StaysInsideAppend(HookEscape(s[0]), EscapeWith(HookEscape, s[1..]));
    }
  }

  /** Whatever the text, control characters included, nothing in it can end the literal early. */
  lemma NoBareQuote(s: string)
    ensures StaysInside(EscapeJson(s))
  {
    EscapeJsonIsSimultaneous(s);
    EscapeStaysInside(s);
  }

  /** What a reader of the platform's protocol finds in the answer: the decision, then the
      message as a string literal, then the closing braces and nothing else. */
  ghost predicate Carries(out: string, head: string, message: string) {
    head <= out && ReadString(out[|head|..]) == Some((message, TAIL))
  }

  /** The text has no control character that the escaper leaves raw. */
  predicate Clean(s: string) {
    forall i :: 0 <= i < |s| ==> !LeftRaw(s[i])
  }

  type CleanText = s: string | Clean(s)

  lemma LiteralCarries(head: string, kind: string, message: string)
    ensures Carries(head + (kind + (EscapeJson(message) + QUOTE + TAIL)), head + kind, message) <==> Clean(message)
  {
    var rest := EscapeJson(message) + QUOTE + TAIL;
    var out := head + (kind + rest);
    assert out == (head + kind) + rest;
    assert out[|head + kind|..] == rest;
    EscapedTextReadsBack(message, TAIL);
  }

  /** The answer of a Claude gate carries the deny reason, or the context of an advisory, to the
      reader unchanged, exactly when the text is clean. */
  lemma MessageArrives(d: Decision)
    ensures d.Deny? ==> (Carries(ClaudeOutput(d), HEAD + DENY_REASON, d.reason) <==> Clean(d.reason))
    ensures d.Advisory? || d.Liability? ==>
      (Carries(ClaudeOutput(d), HEAD + ALLOW_CONTEXT, "[mati] " + d.context) <==> Clean("[mati] " + d.context))
    ensures d.AlreadyConsulted? ==>
      (Carries(ClaudeOutput(d), HEAD + ALLOW_CONTEXT, "[mati] Record already consulted. " + d.context) <==>
       Clean("[mati] Record already consulted. " + d.context))
  {
    match d
    case Deny(_, reason) =>
      LiteralCarries(HEAD, DENY_REASON, reason);
    case AlreadyConsulted(context) =>
      LiteralCarries(HEAD, ALLOW_CONTEXT, "[mati] Record already consulted. " + context);
    case Advisory(context) =>
      LiteralCarries(HEAD, ALLOW_CONTEXT, "[mati] " + context);
    case Liability(context) =>
      LiteralCarries(HEAD, ALLOW_CONTEXT, "[mati] " + context);
    case _ =>
  }

  // ----- When the output blocks

  /** What the platforms take for a block: exit code 2, or a readable answer with the permission
      decision "deny". An answer that is not valid JSON decides nothing. */
  ghost predicate Blocks(a: Adapter) {
    a.exitCode == 2 || exists m :: Carries(a.stdout, HEAD + DENY_REASON, m)
  }

  lemma SharedHead(head: string, x: string, y: string)
    ensures head + x <= head + y <==> x <= y
  {
    if x <= y {
      assert (head + y)[..|head + x|] == head + x;
    }
    if head + x <= head + y {
      assert forall i :: 0 <= i < |x| ==> x[i] == (head + x)[|head| + i] == (head + y)[|head| + i] == y[i];
    }
  }

  lemma NotADeny(rest: string)
    requires rest != [] && rest[0] != 'd'
    ensures !(HEAD + DENY_REASON <= HEAD + rest)
  {
    assert DENY_REASON[0] == 'd';
    SharedHead(HEAD, DENY_REASON, rest);
  }

  lemma ContextAllows(context: string)
    ensures !(HEAD + DENY_REASON <= ContextOutput(context))
  {
    var rest := ALLOW_CONTEXT + (EscapeJson(context) + QUOTE + TAIL);
    assert rest[0] == 'a';
    NotADeny(rest);
  }

  lemma AllowIsNotDeny()
    ensures !(HEAD + DENY_REASON <= ALLOW_OUTPUT)
  {
    assert ALLOW_ONLY[0] == 'a';
    NotADeny(ALLOW_ONLY);
  }

  /** No other decision prints anything like a deny. */
  lemma OthersDoNotDeny(d: Decision)
    requires !d.Deny?
    ensures !(HEAD + DENY_REASON <= ClaudeOutput(d))
  {
    match d
    case AlreadyConsulted(context) =>
      ContextAllows("[mati] Record already consulted. " + context);
    case Advisory(context) =>
      ContextAllows("[mati] " + context);
    case Liability(context) =>
      ContextAllows("[mati] " + context);
    case _ =>
      AllowIsNotDeny();
  }

  /** A deny answer can be read, as some message, exactly when its reason is clean. */
  lemma DenyReadable(reason: string)
    ensures (exists m :: Carries(DenyOutput(reason), HEAD + DENY_REASON, m)) <==> Clean(reason)
  {
    LiteralCarries(HEAD, DENY_REASON, reason);
    var rest := EscapeJson(reason) + QUOTE + TAIL;
    assert DenyOutput(reason) == (HEAD + DENY_REASON) + rest;
    assert DenyOutput(reason)[|HEAD + DENY_REASON|..] == rest;
    EscapedTextReadsBack(reason, TAIL);
  }

  lemma NothingPrinted()
    ensures forall m :: !Carries("", HEAD + DENY_REASON, m)
  {
    assert |HEAD| > 0;
  }

  lemma ClaudeBlocks(d: Decision)
    ensures (exists m :: Carries(ClaudeOutput(d), HEAD + DENY_REASON, m)) <==> d.Deny? && Clean(d.reason)
  {
    if d.Deny? {
      DenyReadable(d.reason);
      assert ClaudeOutput(d) == DenyOutput(d.reason);
    } else {
      OthersDoNotDeny(d);
    }
  }

  /** A formatted decision blocks exactly when it is a deny and the platform can read it. */
  lemma FormatBlocks(v: Variant, d: Decision, events: seq<Event>)
    requires SinglePath(v)
    ensures Blocks(Adapted(v, d, events)) <==> d.Deny? && (v == CodexPreBash || Clean(d.reason))
  {
    var a := Adapted(v, d, events);
    NothingPrinted();
    if v == ClaudePreRead || v == ClaudePreBash {
      ClaudeBlocks(d);
      assert a.exitCode == 0 && a.stdout == ClaudeOutput(d);
    } else if v == ClaudePreEdit && d.Deny? {
      DenyReadable(d.reason);
      assert a.exitCode == 0 && a.stdout == DenyOutput(d.reason);
    } else {
      assert a.stdout == "" && (a.exitCode == 2 <==> d.Deny?);
    }
  }

  lemma BypassDoesNotBlock(v: Variant)
    ensures !Blocks(FailedOpen(v))
  {
    AllowIsNotDeny();
    NothingPrinted();
  }

  /** On every single-path gate the output blocks exactly when the decision is a deny and, on the
      gates that answer in JSON, its reason is clean. Otherwise the deny is decided and audited,
      and the access goes ahead. */
  lemma OutputBlocksIff(words: Wording, v: Variant, path: string, data: EvalData, globs: Option<string -> bool>)
    requires SinglePath(v)
    ensures var site := Site(words, v, path, data, globs);
      Blocks(site) <==> site.decision.Deny? && (v == CodexPreBash || Clean(site.decision.reason))
  {
    BypassDoesNotBlock(v);
    var consulted := if RecentOnly(v) then data.consultedRecent else data.consulted;
    var result := Evaluate(words, path, data.record, data.gotchas, consulted);
    FormatBlocks(v, result.0, result.1);
    FormatBlocks(v, Deny(FileKey(path), words.mandateReason(path)), [FloorConsultBlocked(FileKey(path))]);
  }

  // ----- The reasons as the hook words them

  const BRAND: CleanText := "[mati] "
  const CONFIRMED: CleanText := "Confirmed gotcha on "
  const CALL: CleanText := " \U{2014} call mem_get(\""
  const FILE: CleanText := "file:"
  const AND_READ: CleanText := "\") and read the "
  const RECORD: CleanText := "record before "
  const ACCESSING: CleanText := "accessing this file."
  const STALENESS: CleanText := " (staleness "
  const VERIFY: CleanText := " \U{2014} verify "
  const DETAILS: CleanText := "critical details)"
  const POLICY: CleanText := "Org policy requires "
  const CONSULTING: CleanText := "consulting "
  const BEFORE: CleanText := " before access"
  const FIRST: CleanText := "\") first."

  /** The path as the deny reason quotes it. */
  function SafePath(path: string): string {
    Replace(Replace(path, '\\', "\\\\"), '"', "\\\"")
  }

  /** Why a confirmed gotcha blocks. `decimals` prints a number. */
  function GotchaReason(path: string, rec: FileRecord, decimals: real -> CleanText): string {
    (BRAND + CONFIRMED) + SafePath(path) + (CALL + FILE) + SafePath(path) + (AND_READ + RECORD + ACCESSING)
    + StalenessNote(rec.staleness, decimals)
  }

  function StalenessNote(staleness: real, decimals: real -> CleanText): string {
    if staleness >= 0.4 then STALENESS + decimals(staleness) + VERIFY + DETAILS else ""
  }

  /** Why a mandated path blocks. */
  function MandateReason(path: string): string {
    (BRAND + POLICY + CONSULTING) + path + (BEFORE + CALL) + FileKey(path) + FIRST
  }

  /** The hook's own wording of the two deny reasons, around any wording of the rest. */
  function HookWording(context: (string, FileRecord, seq<string>) -> string, liability: (string, FileRecord) -> string,
                       decimals: real -> CleanText): Wording {
    Wording((p, r) => GotchaReason(p, r, decimals), context, liability, MandateReason)
  }

  lemma CleanAppend(a: string, b: string)
    ensures Clean(a + b) <==> Clean(a) && Clean(b)
  {
    assert forall i :: 0 <= i < |a| ==> a[i] == (a + b)[i];
    assert forall i :: 0 <= i < |b| ==> b[i] == (a + b)[|a| + i];
  }

  lemma {:induction false} ReplaceClean(s: string, c: char, r: string)
    requires !LeftRaw(c) && Clean(r)
    ensures Clean(Replace(s, c, r)) <==> Clean(s)
  {
    if s == [] {
    } else {
      ReplaceClean(s[1..], c, r);
      CleanAppend(if s[0] == c then r else [s[0]], Replace(s[1..], c, r));
      assert s == [s[0]] + s[1..];
      CleanAppend([s[0]], s[1..]);
      assert Clean([s[0]]) <==> !LeftRaw(s[0]) by {
        assert [s[0]][0] == s[0];
      }
    }
  }

  lemma SafePathClean(path: string)
    ensures Clean(SafePath(path)) <==> Clean(path)
  {
    ReplaceClean(path, '\\', "\\\\");
    ReplaceClean(Replace(path, '\\', "\\\\"), '"', "\\\"");
  }

  lemma ThreeClean(a: CleanText, b: CleanText, c: CleanText)
    ensures Clean(a + b) && Clean(a + b + c)
  {
    CleanAppend(a, b);
    CleanAppend(a + b, c);
  }

  lemma StalenessNoteClean(staleness: real, decimals: real -> CleanText)
    ensures Clean(StalenessNote(staleness, decimals))
  {
    ThreeClean(STALENESS, decimals(staleness), VERIFY);
    CleanAppend(STALENESS + decimals(staleness) + VERIFY, DETAILS);
  }

  lemma AroundPath(a: string, p: string, b: string, q: string, c: string)
    requires Clean(a) && Clean(b) && Clean(c)
    ensures Clean(a + p + b + q + c) <==> Clean(p) && Clean(q)
  {
    CleanAppend(a, p);
    CleanAppend(a + p, b);
    CleanAppend(a + p + b, q);
    CleanAppend(a + p + b + q, c);
  }

  lemma GotchaReasonClean(path: string, rec: FileRecord, decimals: real -> CleanText)
    ensures Clean(GotchaReason(path, rec, decimals)) <==> Clean(path)
  {
    var p, note := SafePath(path), StalenessNote(rec.staleness, decimals);
    var a, b, c := BRAND + CONFIRMED, CALL + FILE, AND_READ + RECORD + ACCESSING;
    SafePathClean(path);
    StalenessNoteClean(rec.staleness, decimals);
    CleanAppend(BRAND, CONFIRMED);
    CleanAppend(CALL, FILE);
    ThreeClean(AND_READ, RECORD, ACCESSING);
    AroundPath(a, p, b, p, c);
    CleanAppend(a + p + b + p + c, note);
  }

  lemma MandateReasonClean(path: string)
    ensures Clean(MandateReason(path)) <==> Clean(path)
  {
    ThreeClean(BRAND, POLICY, CONSULTING);
    CleanAppend(BEFORE, CALL);
    CleanAppend(FILE, path);
    AroundPath(BRAND + POLICY + CONSULTING, path, BEFORE + CALL, FileKey(path), FIRST);
  }

  lemma EvaluateReason(words: Wording, path: string, record: Option<Json<FileRecord>>,
                       gotchas: map<string, Json<Gotcha>>, consulted: bool)
    ensures var d := Evaluate(words, path, record, gotchas, consulted).0;
      d.Deny? ==> record.Some? && record.value.Object? && d.reason == words.denyReason(path, record.value.value)
  {
  }

  lemma SiteReason(words: Wording, v: Variant, path: string, data: EvalData, globs: Option<string -> bool>)
    ensures var d := Site(words, v, path, data, globs).decision;
      d.Deny? ==>
        || d.reason == words.mandateReason(path)
        || (data.record.Some? && data.record.value.Object? &&
             d.reason == words.denyReason(path, data.record.value.value))
  {
    var consulted := if RecentOnly(v) then data.consultedRecent else data.consulted;
    EvaluateReason(words, path, data.record, data.gotchas, consulted);
  }

  /** So with the hook's wording a deny blocks exactly when the path is clean, which a caller can
      see beforehand: on the Claude gates a file whose name holds a control character other than
      newline, carriage return and tab is never blocked. */
  lemma DenyBlocksIffPathClean(context: (string, FileRecord, seq<string>) -> string,
                               liability: (string, FileRecord) -> string, decimals: real -> CleanText,
                               v: Variant, path: string, data: EvalData, globs: Option<string -> bool>)
    requires SinglePath(v)
    ensures var site := Site(HookWording(context, liability, decimals), v, path, data, globs);
      Blocks(site) <==> site.decision.Deny? && (v == CodexPreBash || Clean(path))
  {
    var words := HookWording(context, liability, decimals);
    OutputBlocksIff(words, v, path, data, globs);
    SiteReason(words, v, path, data, globs);
    MandateReasonClean(path);
    if data.record.Some? && data.record.value.Object? {
      GotchaReasonClean(path, data.record.value.value, decimals);
    }
  }

  const ESCAPE_PATH: string := "\U{001B}"

  /** The shortest such name, under a mandate for every path: denied, and not blocked. */
  lemma UnreadableDeny(context: (string, FileRecord, seq<string>) -> string,
                       liability: (string, FileRecord) -> string, decimals: real -> CleanText)
    ensures var data := EvalData(false, false, None, map[], false, false);
      var site := Site(HookWording(context, liability, decimals), ClaudePreRead, ESCAPE_PATH, data, Some(_ => true));
      site.decision.Deny? && !Blocks(site)
  {
    var data := EvalData(false, false, None, map[], false, false);
    SiteDenies(HookWording(context, liability, decimals), ClaudePreRead, ESCAPE_PATH, data, Some(_ => true));
    DenyBlocksIffPathClean(context, liability, decimals, ClaudePreRead, ESCAPE_PATH, data, Some(_ => true));
    assert LeftRaw(ESCAPE_PATH[0]);
  }

  lemma FirstRaw(s: string) returns (k: nat)
    requires exists i :: 0 <= i < |s| && LeftRaw(s[i])
    ensures k < |s| && LeftRaw(s[k]) && forall i :: 0 <= i < k ==> !LeftRaw(s[i])
  {
    k := 0;
    while !LeftRaw(s[k])
      invariant k < |s| && forall i :: 0 <= i < k ==> !LeftRaw(s[i])
      decreases |s| - k
    {
      k := k + 1;
    }
  }
}
