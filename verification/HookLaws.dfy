/** The hook's tables once more in plain words: what each record leads to, which events each
    platform keeps, what is printed, and when a whole gate or patch is denied. */
module HookLaws {
  import opened Common
  import opened JsonText
  import opened HookDecide

  // ----- Evaluation

  /** What an evaluation leads to, and the one event it reports. */
  lemma EvaluationTable(words: Wording, path: string, record: Option<Json<FileRecord>>,
                        gotchas: map<string, Json<Gotcha>>, consulted: bool)
    ensures var r := Evaluate(words, path, record, gotchas, consulted);
      var stored := record.Some? && record.value.Object?;
      && (r.0.NoRecord? <==> !stored) && (!stored ==> r.1 == [Miss("file:" + path)])
      && (stored ==>
           var rec := record.value.value;
           var live := rec.tier != "tombstone" && rec.tier != "liability";
           var blocks := RecordBlocks(record, gotchas);
           && (r.0.Tombstone? <==> rec.tier == "tombstone") && (r.0.Liability? <==> rec.tier == "liability")
           && (r.0.Deny? <==> blocks && !consulted) && (r.0.AlreadyConsulted? <==> blocks && consulted)
           && (r.0.Advisory? <==> live && !blocks && rec.confidence >= 0.3 && rec.quality >= 0.4)
           && (r.0.Allow? <==> live && !blocks && !(rec.confidence >= 0.3 && rec.quality >= 0.4)))
  {
    if record.Some? && record.value.Object? {
      DenySignalMeans(record.value.value.gotchaKeys, gotchas);
    }
  }

  /** The event of an evaluation is determined by its decision. */
  lemma EvaluationEvents(words: Wording, path: string, record: Option<Json<FileRecord>>,
                         gotchas: map<string, Json<Gotcha>>, consulted: bool)
    ensures var r := Evaluate(words, path, record, gotchas, consulted);
      r.1 == match r.0
             case NoRecord => [Miss("file:" + path)]
             case Liability(_) => [Hit("file:" + path)]
             case Advisory(_) => [Hit("file:" + path)]
             case AlreadyConsulted(_) => [ComplianceHit("file:" + path)]
             case Deny(_, _) => [BlockedUnconsultedRead("file:" + path)]
             case _ => []
  {
  }

  /** The rules shown to the actor are the non-empty rules of the attached trusted gotchas. */
  lemma {:induction false} RulesShown(keys: seq<string>, gotchas: map<string, Json<Gotcha>>, rule: string)
    ensures rule in InjectedRules(keys, gotchas) <==>
      rule != "" && exists k :: k in keys && Trusted(gotchas, k) && gotchas[k].value.rule == rule
  {
    if keys == [] {
    } else {
      RulesShown(keys[1..], gotchas, rule);
      assert keys == [keys[0]] + keys[1..];
    }
  }

  // ----- Events per platform

  /** The events of an evaluation as each gate reports them. */
  lemma PlatformTable(v: Variant, path: string, d: Decision, events: seq<Event>)
    requires v != CodexPostBash && v != ClaudePostMemGet
    requires events == match d
                       case NoRecord => [Miss("file:" + path)]
                       case Liability(_) => [Hit("file:" + path)]
                       case Advisory(_) => [Hit("file:" + path)]
                       case AlreadyConsulted(_) => [ComplianceHit("file:" + path)]
                       case Deny(_, _) => [BlockedUnconsultedRead("file:" + path)]
                       case _ => []
    ensures v == ClaudePreRead || v == ClaudePreBash ==> PlatformEvents(v, d, events) == events
    ensures v == ClaudePreEdit ==>
      PlatformEvents(v, d, events) ==
        if d.Deny? then [EditBlocked("file:" + path)]
        else if d.AlreadyConsulted? then [EditConsulted("file:" + path)]
        else []
    ensures v == CodexPreBash || v == CodexPreApplyPatch ==>
      PlatformEvents(v, d, events) ==
        if d.Deny? then [CodexShellBlocked("file:" + path)]
        else if d.NoRecord? then [Miss("file:" + path)]
        else []
  {
    if events != [] {
      assert events == [events[0]];
      OneEvent(v, d, events[0]);
    }
  }

  // ----- What is printed

  /** The fixed parts of an answer. */
  lemma WireTexts()
    ensures HEAD == "{\"hookSpecificOutput\":{\"hookEventName\":\"PreToolUse\",\"permissionDecision\":\""
    ensures DENY_REASON == "deny\",\"permissionDecisionReason\":\""
    ensures ALLOW_CONTEXT == "allow\",\"additionalContext\":\""
    ensures ALLOW_ONLY == "allow\"}}" && TAIL == "}}" && QUOTE == "\""
  {
  }

  /** Codex is answered by exit code and a hint on standard error, an edit only when it is denied. */
  lemma Answers(v: Variant, d: Decision)
    ensures v == CodexPreBash || v == CodexPreApplyPatch ==>
      Format(v, d) == if d.Deny? then ("", "mati: call mem_get(\"" + d.fileKey + "\") first", 2) else ("", "", 0)
    ensures v == ClaudePreEdit && !d.Deny? ==> Format(v, d) == ("", "", 0)
    ensures v == ClaudePreRead || v == ClaudePreBash || (v == ClaudePreEdit && d.Deny?) ==>
      Format(v, d) == (ClaudeOutput(d), "", 0)
    ensures d.NoRecord? || d.Tombstone? || d.Allow? || d.NotFileRead? ==> ClaudeOutput(d) == HEAD + ALLOW_ONLY
  {
  }

  /** When the daemon does not answer, reads and shell commands of Claude are allowed explicitly,
      everything else by saying nothing. */
  lemma BypassAnswer(v: Variant)
    ensures FailedOpen(v).decision == Allow && FailedOpen(v).events == [] && FailedOpen(v).exitCode == 0
    ensures FailedOpen(v).stderr == ""
    ensures FailedOpen(v).stdout == if v == ClaudePreRead || v == ClaudePreBash then HEAD + ALLOW_ONLY else ""
  {
  }

  // ----- A whole gate

  lemma {:induction false} Collected(siteOf: string -> Option<Adapter>, paths: seq<string>, a: Adapter)
    ensures a in Collect(siteOf, paths) <==> exists i: nat :: i < |paths| && siteOf(paths[i]) == Some(a)
  {
    if paths == [] {
    } else {
      Collected(siteOf, paths[1..], a);
      assert forall i: nat :: i < |paths[1..]| ==> paths[1..][i] == paths[i + 1];
      if siteOf(paths[0]) == Some(a) {
        assert a in Collect(siteOf, paths);
      }
      if i: nat :| i < |paths| && siteOf(paths[i]) == Some(a) && i > 0 {
        assert paths[1..][i - 1] == paths[i];
      }
    }
  }

  /** Extra file `i` of a shell command should be denied: it is among the first fifty, it is not the
      primary file, and the daemon answers for it. */
  ghost predicate ExtraDenied(v: Variant, path: string, extras: seq<string>, daemon: string -> Option<EvalData>,
                              globs: Option<string -> bool>, i: nat) {
    && (v == ClaudePreBash || v == CodexPreBash)
    && i < |extras| && i < 50 && extras[i] != path
    && daemon(extras[i]).Some? && ShouldDeny(v, extras[i], daemon(extras[i]).value, globs)
  }

  ghost predicate SomeDenies(sites: seq<Adapter>) {
    exists i :: 0 <= i < |sites| && sites[i].decision.Deny?
  }

  lemma FurtherDenied(words: Wording, v: Variant, path: string, extras: seq<string>, daemon: string -> Option<EvalData>,
                      globs: Option<string -> bool>) returns (k: nat)
    requires SinglePath(v) && SomeDenies(FurtherSites(words, v, path, extras, daemon, globs))
    ensures ExtraDenied(v, path, extras, daemon, globs, k)
  {
    var siteOf := ExtraSite(words, v, path, daemon, globs);
    var sites := FurtherSites(words, v, path, extras, daemon, globs);
    var i :| 0 <= i < |sites| && sites[i].decision.Deny?;
    assert sites[i] in sites;
    Collected(siteOf, Capped(extras), sites[i]);
    k :| k < |Capped(extras)| && siteOf(Capped(extras)[k]) == Some(sites[i]);
    SiteDenies(words, v, extras[k], daemon(extras[k]).value, globs);
  }

  lemma FurtherDenies(words: Wording, v: Variant, path: string, extras: seq<string>, daemon: string -> Option<EvalData>,
                      globs: Option<string -> bool>, k: nat)
    requires SinglePath(v) && ExtraDenied(v, path, extras, daemon, globs, k)
    ensures SomeDenies(FurtherSites(words, v, path, extras, daemon, globs))
  {
    var siteOf := ExtraSite(words, v, path, daemon, globs);
    var sites := FurtherSites(words, v, path, extras, daemon, globs);
    SiteDenies(words, v, extras[k], daemon(extras[k]).value, globs);
    assert Capped(extras)[k] == extras[k];
    Collected(siteOf, Capped(extras), siteOf(extras[k]).value);
    var j :| 0 <= j < |sites| && sites[j] == siteOf(extras[k]).value;
  }

  /** A single-path gate whose daemon answers denies exactly when the path should be denied, or its
      symlink target, or one of the first fifty further files of a shell command. */
  lemma GateDenies(words: Wording, v: Variant, path: string, lexical: EvalData, canonical: Option<string>,
                   extras: seq<string>, daemon: string -> Option<EvalData>, globs: Option<string -> bool>, r: Adapter)
    requires SinglePath(v)
    requires FirstDenyOrLexical(Sites(words, v, path, lexical, canonical, extras, daemon, globs), r)
    ensures r.decision.Deny? <==>
      || ShouldDeny(v, path, lexical, globs)
      || (canonical.Some? && daemon(canonical.value).Some?
          && ShouldDeny(v, canonical.value, daemon(canonical.value).value, globs))
      || exists i: nat :: ExtraDenied(v, path, extras, daemon, globs, i)
  {
    var first := [Site(words, v, path, lexical, globs)];
    var second := CanonicalSite(words, v, canonical, daemon, globs);
    var more := FurtherSites(words, v, path, extras, daemon, globs);
    EscalatesOnly(first + second + more, r);
    SiteDenies(words, v, path, lexical, globs);
    if canonical.Some? && daemon(canonical.value).Some? {
      SiteDenies(words, v, canonical.value, daemon(canonical.value).value, globs);
    }
    if SomeDenies(more) {
      var k := FurtherDenied(words, v, path, extras, daemon, globs);
    }
    if k: nat :| ExtraDenied(v, path, extras, daemon, globs, k) {
      FurtherDenies(words, v, path, extras, daemon, globs, k);
    }
    SomeOfThree(first, second, more);
    assert SomeDenies(first) <==> first[0].decision.Deny?;
    assert SomeDenies(second) <==> second != [] && second[0].decision.Deny?;
  }

  lemma SomeOfThree(a: seq<Adapter>, b: seq<Adapter>, c: seq<Adapter>)
    ensures SomeDenies(a + b + c) <==> SomeDenies(a) || SomeDenies(b) || SomeDenies(c)
  {
    assert forall i :: 0 <= i < |a| ==> (a + b + c)[i] == a[i];
    assert forall i :: 0 <= i < |b| ==> (a + b + c)[|a| + i] == b[i];
    assert forall i :: 0 <= i < |c| ==> (a + b + c)[|a| + |b| + i] == c[i];
  }

  // ----- A patch

  lemma {:induction false} DeniedKeysMean(siteOf: string -> Option<Adapter>, paths: seq<string>, key: string)
    ensures key in DeniedKeys(siteOf, paths) <==>
      exists i: nat :: i < |paths| && Denies(siteOf(paths[i])) && key == "file:" + paths[i]
  {
    if paths == [] {
    } else {
      DeniedKeysMean(siteOf, paths[1..], key);
      assert forall i: nat :: i < |paths[1..]| ==> paths[1..][i] == paths[i + 1];
      if i: nat :| i < |paths| && Denies(siteOf(paths[i])) && key == "file:" + paths[i] && i > 0 {
        assert paths[1..][i - 1] == paths[i];
      }
    }
  }

  /** File `i` of a patch should be denied: it is among the first fifty, the daemon answers for it,
      its gotchas could be read, its record blocks, and there is no recent receipt. */
  ghost predicate PatchFileDenied(paths: seq<string>, daemon: string -> Option<EvalData>, i: nat) {
    && i < |paths| && i < 50 && daemon(paths[i]).Some?
    && var data := daemon(paths[i]).value;
       !data.consultedRecent && !data.gotchaError && Blocking(data)
  }

  /** A patch reports exactly the keys of the files that should be denied. */
  lemma PatchDenies(words: Wording, paths: seq<string>, daemon: string -> Option<EvalData>, key: string)
    ensures key in DeniedKeys(PatchSite(words, daemon), Capped(paths)) <==>
      exists i: nat :: PatchFileDenied(paths, daemon, i) && key == "file:" + paths[i]
  {
    var siteOf := PatchSite(words, daemon);
    DeniedKeysMean(siteOf, Capped(paths), key);
    forall i: nat | i < |Capped(paths)| ensures Denies(siteOf(paths[i])) <==> PatchFileDenied(paths, daemon, i) {
      if daemon(paths[i]).Some? {
        ProcessDenies(words, CodexPreApplyPatch, paths[i], daemon(paths[i]).value);
      }
    }
    assert forall i: nat :: i < |Capped(paths)| ==> Capped(paths)[i] == paths[i];
  }

  // ----- Characters

  /** A text is clean when every character is at least U+0020 or a tab, newline or carriage return. */
  lemma CleanMeans(s: string)
    ensures Clean(s) <==>
      forall i :: 0 <= i < |s| ==> s[i] as int >= 0x20 || s[i] as int == 9 || s[i] as int == 10 || s[i] as int == 13
  {
    forall c: char
      ensures LeftRaw(c) <==> !(c as int >= 0x20 || c as int == 9 || c as int == 10 || c as int == 13)
    {
      ControlMeans(c);
    }
  }

  // ----- Texts

  /** The context of an advisory and of a consulted record shows the rules of the record; a liability
      has its own text. */
  lemma ContextsMean(words: Wording, path: string, rec: FileRecord, gotchas: map<string, Json<Gotcha>>, consulted: bool)
    ensures var d := Evaluate(words, path, Some(Object(rec)), gotchas, consulted).0;
      && (d.Advisory? || d.AlreadyConsulted? ==>
           d.context == words.context(path, rec, InjectedRules(rec.gotchaKeys, gotchas)))
      && (d.Liability? ==> d.context == words.liability(path, rec))
      && (d.Deny? ==> d.fileKey == "file:" + path && d.reason == words.denyReason(path, rec))
  {
  }

  /** A site prints the answer to its decision, or bypasses on an error. */
  lemma SitePrints(words: Wording, v: Variant, path: string, data: EvalData, globs: Option<string -> bool>)
    ensures var a := Site(words, v, path, data, globs);
      a == FailedOpen(v) || (a.stdout, a.stderr, a.exitCode) == Format(v, a.decision)
  {
  }

  /** The texts of the two deny reasons. */
  lemma ReasonTexts(path: string, rec: FileRecord, decimals: real -> CleanText)
    ensures MandateReason(path) ==
      ("[mati] " + "Org policy requires " + "consulting ") + path
      + (" before access" + " \U{2014} call mem_get(\"") + ("file:" + path) + "\") first."
    ensures GotchaReason(path, rec, decimals) ==
      ("[mati] " + "Confirmed gotcha on ") + SafePath(path) + (" \U{2014} call mem_get(\"" + "file:") + SafePath(path)
      + ("\") and read the " + "record before " + "accessing this file.") + StalenessNote(rec.staleness, decimals)
    ensures StalenessNote(rec.staleness, decimals) ==
      if rec.staleness < 0.4 then ""
      else " (staleness " + decimals(rec.staleness) + " \U{2014} verify " + "critical details)"
  {
  }

  /** A path is quoted with a backslash before every backslash and quote. */
  lemma {:induction false} SafePathMeans(path: string)
    ensures SafePath(path) == EscapeWith((c: char) => if c == '\\' || c == '"' then ['\\', c] else [c], path)
  {
    if path == [] {
    } else {
      SafePathMeans(path[1..]);
      SafePathHead(path[0], path[1..]);
      assert path == [path[0]] + path[1..];
    }
  }

  lemma SafePathHead(c: char, rest: string)
    ensures SafePath([c] + rest) == (if c == '\\' || c == '"' then ['\\', c] else [c]) + SafePath(rest)
  {
    ReplaceAppend([c], rest, '\\', "\\\\");
    ReplaceAppend(Replace([c], '\\', "\\\\"), Replace(rest, '\\', "\\\\"), '"', "\\\"");
    assert [c][1..] == [];
    assert Replace([c], '\\', "\\\\") == if c == '\\' then "\\\\" else [c];
    assert Replace([c], '"', "\\\"") == if c == '"' then "\\\"" else [c];
    ReplaceTwo('\\', '\\', '"', "\\\"");
  }
}
