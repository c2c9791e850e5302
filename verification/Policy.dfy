/** Signed policy bundles: the canonical payload text and the verification of its signature. */
module Policy {
  import opened Common
  import opened JsonText

  const POLICY_FORMAT_VERSION: nat := 1

  datatype Rule = Rule(id: string, target: string, level: string, reason: string)

  datatype Payload = Payload(orgId: string, bundleId: string, issuedAt: string, rules: seq<Rule>)

  datatype Bundle = Bundle(version: nat, alg: string, keyId: string, issuer: string, payload: Payload,
    signature: string)

  datatype TrustedKey = TrustedKey(keyId: string, publicKey: seq<nat>)

  datatype PolicyError =
    | UnsupportedVersion(version: nat) | UnsupportedAlg(alg: string) | UnknownKey(keyId: string) | SignatureInvalid

  datatype Verified = Ok(orgId: string, bundleId: string, rules: seq<Rule>) | Err(error: PolicyError)

  /** Base64 and Ed25519, which are foreign code. */
  datatype Crypto = Crypto(
    validKey: seq<nat> -> bool,
    decodeBase64: string -> Option<seq<nat>>,
    verifies: (seq<nat>, string, seq<nat>) -> bool)

  // ----- Canonical text

  function HexDigit(n: nat): char
    requires n < 16
  {
    if n < 10 then ('0' as int + n) as char else ('a' as int + n - 10) as char
  }

  /** The escaping table of the serialiser. */
  function SerdeEscape(c: char): string {
    if c == '"' then "\\\""
    else if c == '\\' then "\\\\"
    else if c == BACKSPACE then "\\b"
    else if c == FORM_FEED then "\\f"
    else if c == '\n' then "\\n"
    else if c == '\r' then "\\r"
    else if c == '\t' then "\\t"
    else if c < ' ' then ['\\', 'u', '0', '0', HexDigit(c as int / 16), HexDigit(c as int % 16)]
    else [c]
  }

  function Literal(s: string): string {
    QUOTE + EscapeWith(SerdeEscape, s) + QUOTE
  }

  function RuleText(r: Rule): string { "{\"id\":" + Literal(r.id) + FromTarget(r) }
  function FromTarget(r: Rule): string { ",\"target\":" + Literal(r.target) + FromLevel(r) }
  function FromLevel(r: Rule): string { ",\"level\":" + Literal(r.level) + FromReason(r) }
  function FromReason(r: Rule): string { ",\"reason\":" + Literal(r.reason) + "}" }

  function RulesText(rules: seq<Rule>): string
    decreases |rules|, 0
  {
    if rules == [] then "" else RuleText(rules[0]) + MoreRules(rules[1..])
  }

  function MoreRules(rules: seq<Rule>): string
    decreases |rules|, 1
  {
    if rules == [] then "" else "," + RulesText(rules)
  }

  /** Compact JSON with the frozen field order; this text is what gets signed. */
  function Canonical(p: Payload): string { "{\"org_id\":" + Literal(p.orgId) + FromBundle(p) }
  function FromBundle(p: Payload): string { ",\"bundle_id\":" + Literal(p.bundleId) + FromIssued(p) }
  function FromIssued(p: Payload): string { ",\"issued_at\":" + Literal(p.issuedAt) + FromRules(p) }
  function FromRules(p: Payload): string { ",\"rules\":[" + (RulesText(p.rules) + "]}") }

  // ----- Injectivity

  lemma SerdeDecodes(c: char)
    ensures Decodes(SerdeEscape(c), c)
  {
    if c == '"' {
      DecodesShort('"');
    } else if c == '\\' {
      DecodesShort('\\');
    } else if c == BACKSPACE {
      DecodesShort('b');
    } else if c == FORM_FEED {
      DecodesShort('f');
    } else if c == '\n' {
      DecodesShort('n');
    } else if c == '\r' {
      DecodesShort('r');
    } else if c == '\t' {
      DecodesShort('t');
    } else if c < ' ' {
      var h, l := HexDigit(c as int / 16), HexDigit(c as int % 16);
      assert HexValue(h) == Some(c as int / 16) && HexValue(l) == Some(c as int % 16);
      assert FourHex('0', '0', h, l) == Some(c);
      DecodesLong('0', '0', h, l);
    } else {
      DecodesRaw(c);
    }
  }

  /** Every string reads back from its canonical literal, whatever follows it. */
  lemma LiteralReadsBack(s: string, rest: string)
    ensures Literal(s) + rest == QUOTE + (EscapeWith(SerdeEscape, s) + QUOTE + rest)
    ensures ReadString((Literal(s) + rest)[1..]) == Some((s, rest))
  {
    forall i | 0 <= i < |s| ensures Decodes(SerdeEscape(s[i]), s[i]) {
      SerdeDecodes(s[i]);
    }
    ReadBack(SerdeEscape, s, rest);
    var tail := EscapeWith(SerdeEscape, s) + QUOTE + rest;
    assert Literal(s) + rest == QUOTE + tail;
    assert (QUOTE + tail)[1..] == tail;
  }

  lemma SameLiteral(s: string, t: string, x: string, y: string)
    requires Literal(s) + x == Literal(t) + y
    ensures s == t && x == y
  {
    LiteralReadsBack(s, x);
    LiteralReadsBack(t, y);
  }

  lemma Peel(k: string, x: string, y: string)
    requires k + x == k + y
    ensures x == y
  {
    assert x == (k + x)[|k|..] && y == (k + y)[|k|..];
  }

  /** One field: its fixed name, its literal, and the text behind it. */
  lemma SameField(name: string, s: string, t: string, x: string, y: string)
    requires name + Literal(s) + x == name + Literal(t) + y
    ensures s == t && x == y
  {
    assert name + Literal(s) + x == name + (Literal(s) + x);
    assert name + Literal(t) + y == name + (Literal(t) + y);
    Peel(name, Literal(s) + x, Literal(t) + y);
    SameLiteral(s, t, x, y);
  }

  /** The same with the text behind the field split off once more. */
  lemma SameFieldBefore(name: string, s: string, t: string, m: string, n: string, x: string, y: string)
    requires (name + Literal(s) + m) + x == (name + Literal(t) + n) + y
    ensures s == t && m + x == n + y
  {
    assert (name + Literal(s) + m) + x == name + Literal(s) + (m + x);
    assert (name + Literal(t) + n) + y == name + Literal(t) + (n + y);
    SameField(name, s, t, m + x, n + y);
  }

  /** A rule is read off the front of a text in only one way. */
  lemma SameRule(r: Rule, q: Rule, x: string, y: string)
    requires RuleText(r) + x == RuleText(q) + y
    ensures r == q && x == y
  {
    SameFieldBefore("{\"id\":", r.id, q.id, FromTarget(r), FromTarget(q), x, y);
    SameFieldBefore(",\"target\":", r.target, q.target, FromLevel(r), FromLevel(q), x, y);
    SameFieldBefore(",\"level\":", r.level, q.level, FromReason(r), FromReason(q), x, y);
    SameFieldBefore(",\"reason\":", r.reason, q.reason, "}", "}", x, y);
    Peel("}", x, y);
  }

  lemma Assoc(a: string, b: string, c: string)
    ensures (a + b) + c == a + (b + c)
  {
  }

  lemma RuleTextStarts(r: Rule, x: string)
    ensures RuleText(r) != [] && (RuleText(r) + x)[0] == '{'
  {
    var head, rest := "{\"id\":" + Literal(r.id), FromTarget(r);
    assert head[0] == '{';
    assert RuleText(r) == head + rest;
  }

  lemma RulesTextSplit(rules: seq<Rule>, x: string)
    requires rules != []
    ensures RulesText(rules) + x == RuleText(rules[0]) + (MoreRules(rules[1..]) + x)
    ensures (RulesText(rules) + x)[0] == '{'
  {
    var first, more := RuleText(rules[0]), MoreRules(rules[1..]);
    assert RulesText(rules) == first + more;
    Assoc(first, more, x);
    RuleTextStarts(rules[0], more + x);
  }

  lemma MoreRulesSplit(rules: seq<Rule>, x: string)
    ensures MoreRules(rules) + x == if rules == [] then x else "," + (RulesText(rules) + x)
  {
    if rules == [] {
      assert MoreRules(rules) + x == x;
    } else {
      Assoc(",", RulesText(rules), x);
    }
  }

  /** An empty rule list and a non-empty one never give the same text. */
  lemma SomeRules(a: seq<Rule>, b: seq<Rule>)
    requires RulesText(a) + "]}" == RulesText(b) + "]}" && a == []
    ensures b == []
  {
    assert (RulesText(a) + "]}")[0] == ']';
    if b != [] {
      RulesTextSplit(b, "]}");
    }
  }

  lemma {:induction false} SameRules(a: seq<Rule>, b: seq<Rule>)
    requires RulesText(a) + "]}" == RulesText(b) + "]}"
    ensures a == b
    decreases |a|, 0
  {
    if a == [] {
      SomeRules(a, b);
    } else if b == [] {
      SomeRules(b, a);
    } else {
      RulesTextSplit(a, "]}");
      RulesTextSplit(b, "]}");
      SameRule(a[0], b[0], MoreRules(a[1..]) + "]}", MoreRules(b[1..]) + "]}");
      SameTail(a[1..], b[1..]);
      assert a == [a[0]] + a[1..] && b == [b[0]] + b[1..];
    }
  }

  lemma {:induction false} SameTail(a: seq<Rule>, b: seq<Rule>)
    requires MoreRules(a) + "]}" == MoreRules(b) + "]}"
    ensures a == b
    decreases |a|, 1
  {
    MoreRulesSplit(a, "]}");
    MoreRulesSplit(b, "]}");
    if a != [] && b != [] {
      Peel(",", RulesText(a) + "]}", RulesText(b) + "]}");
      SameRules(a, b);
    } else {
      assert (MoreRules(a) + "]}")[0] == (MoreRules(b) + "]}")[0];
    }
  }

  /** Different payloads have different canonical texts, for rule lists of any length and
      arbitrary strings. */
  lemma CanonicalIsInjective(p: Payload, q: Payload)
    requires Canonical(p) == Canonical(q)
    ensures p == q
  {
    SameField("{\"org_id\":", p.orgId, q.orgId, FromBundle(p), FromBundle(q));
    SameField(",\"bundle_id\":", p.bundleId, q.bundleId, FromIssued(p), FromIssued(q));
    SameField(",\"issued_at\":", p.issuedAt, q.issuedAt, FromRules(p), FromRules(q));
    Peel(",\"rules\":[", RulesText(p.rules) + "]}", RulesText(q.rules) + "]}");
    SameRules(p.rules, q.rules);
  }

  // ----- Verification

  /** Position of the first key with this id. */
  function FirstKey(keys: seq<TrustedKey>, id: string): (r: Option<nat>)
    ensures r.Some? ==> r.value < |keys| && keys[r.value].keyId == id
    ensures r.Some? ==> forall j :: 0 <= j < r.value ==> keys[j].keyId != id
    ensures r.None? ==> forall j :: 0 <= j < |keys| ==> keys[j].keyId != id
  {
    if keys == [] then None
    else if keys[0].keyId == id then Some(0)
    else
      var r := FirstKey(keys[1..], id);
      if r.None? then
        assert forall j :: 1 <= j < |keys| ==> keys[j] == keys[1..][j - 1];
        None
      else
        assert forall j :: 1 <= j <= r.value ==> keys[j] == keys[1..][j - 1];
        Some(r.value + 1)
  }

  function VerifyBundle(bundle: Bundle, keys: seq<TrustedKey>, crypto: Crypto): Verified {
    if bundle.version != POLICY_FORMAT_VERSION then Err(UnsupportedVersion(bundle.version))
    else if bundle.alg != "ed25519" then Err(UnsupportedAlg(bundle.alg))
    else
      var k := FirstKey(keys, bundle.keyId);
      if k.None? then Err(UnknownKey(bundle.keyId))
      else if !crypto.validKey(keys[k.value].publicKey) then Err(SignatureInvalid)
      else
        var sig := crypto.decodeBase64(bundle.signature);
        if sig.None? || |sig.value| != 64 then Err(SignatureInvalid)
        else if !crypto.verifies(keys[k.value].publicKey, Canonical(bundle.payload), sig.value)
        then Err(SignatureInvalid)
        else Ok(bundle.payload.orgId, bundle.payload.bundleId, bundle.payload.rules)
  }

  /** The signature of `bundle` is valid for `text` under key `k`. */
  ghost predicate SignedUnder(bundle: Bundle, key: TrustedKey, text: string, crypto: Crypto) {
    && crypto.validKey(key.publicKey)
    && crypto.decodeBase64(bundle.signature).Some?
    && |crypto.decodeBase64(bundle.signature).value| == 64
    && crypto.verifies(key.publicKey, text, crypto.decodeBase64(bundle.signature).value)
  }

  /** A bundle is accepted exactly when it is a version-1 Ed25519 bundle whose signature is
      valid for some text under the first key with its id, and that text is the canonical text
      of a payload with exactly the accepted organisation, bundle id and rules. */
  lemma AcceptanceTiesRules(bundle: Bundle, keys: seq<TrustedKey>, crypto: Crypto, k: nat)
    requires k < |keys| && keys[k].keyId == bundle.keyId && forall j :: 0 <= j < k ==> keys[j].keyId != bundle.keyId
    ensures VerifyBundle(bundle, keys, crypto).Ok? <==>
      bundle.version == 1 && bundle.alg == "ed25519" && SignedUnder(bundle, keys[k], Canonical(bundle.payload), crypto)
    ensures VerifyBundle(bundle, keys, crypto).Ok? ==>
      forall p: Payload :: Canonical(p) == Canonical(bundle.payload) ==>
        VerifyBundle(bundle, keys, crypto) == Ok(p.orgId, p.bundleId, p.rules)
  {
    assert FirstKey(keys, bundle.keyId) == Some(k);
    forall p: Payload | Canonical(p) == Canonical(bundle.payload) ensures p == bundle.payload {
      CanonicalIsInjective(p, bundle.payload);
    }
  }

  /** There is no fallback: keys after the first match, whatever they are, change nothing, and
      without a match nothing verifies. */
  lemma NoKeyFallback(bundle: Bundle, keys: seq<TrustedKey>, others: seq<TrustedKey>, crypto: Crypto)
    ensures (exists k :: k in keys && k.keyId == bundle.keyId) ==>
      VerifyBundle(bundle, keys + others, crypto) == VerifyBundle(bundle, keys, crypto)
    ensures (forall k :: k in keys ==> k.keyId != bundle.keyId) ==> VerifyBundle(bundle, keys, crypto).Err?
  {
    var first := FirstKey(keys, bundle.keyId);
    if first.Some? {
      var i := first.value;
      assert (keys + others)[i] == keys[i];
      assert forall j :: 0 <= j < i ==> (keys + others)[j] == keys[j];
      assert FirstKey(keys + others, bundle.keyId) == first;
    }
  }

  // ----- The signed text in plain words

  /** The object of one rule. */
  function RuleObject(r: Rule): string {
    "{\"id\":" + Literal(r.id) + ",\"target\":" + Literal(r.target) + ",\"level\":" + Literal(r.level)
    + ",\"reason\":" + Literal(r.reason) + "}"
  }

  /** The objects of some rules, with commas between them. */
  function RuleArray(rules: seq<Rule>): string {
    if rules == [] then ""
    else if |rules| == 1 then RuleObject(rules[0])
    else RuleObject(rules[0]) + "," + RuleArray(rules[1..])
  }

  lemma RuleTextMeans(r: Rule)
    ensures RuleText(r) == RuleObject(r)
  {
    var a, b, c, d := Literal(r.id), Literal(r.target), Literal(r.level), Literal(r.reason);
    Regroup("{\"id\":", a, ",\"target\":", b, ",\"level\":" + c + (",\"reason\":" + d + "}"));
    Regroup("{\"id\":" + a, ",\"target\":" + b, ",\"level\":", c, ",\"reason\":" + d + "}");
    Regroup("{\"id\":" + a + (",\"target\":" + b), ",\"level\":" + c, ",\"reason\":", d, "}");
  }

  lemma Regroup(a: string, b: string, c: string, d: string, e: string)
    ensures a + b + (c + d + e) == a + b + c + d + e
    ensures a + b + (c + d) + e == a + b + c + d + e
  {
  }

  lemma {:induction false} RulesTextMeans(rules: seq<Rule>)
    ensures RulesText(rules) == RuleArray(rules)
  {
    if rules == [] {
    } else {
      RuleTextMeans(rules[0]);
      RulesTextMeans(rules[1..]);
      if |rules| == 1 {
        assert RuleText(rules[0]) + "" == RuleText(rules[0]);
      } else {
        Assoc(RuleText(rules[0]), ",", RulesText(rules[1..]));
      }
    }
  }

  /** The signed text is one object with the organisation, the bundle, the issue time and the rules
      in this order, without white space. */
  lemma CanonicalMeans(p: Payload)
    ensures Canonical(p) ==
      "{\"org_id\":" + Literal(p.orgId) + ",\"bundle_id\":" + Literal(p.bundleId)
      + ",\"issued_at\":" + Literal(p.issuedAt) + ",\"rules\":[" + RuleArray(p.rules) + "]}"
  {
    RulesTextMeans(p.rules);
  }

  const LOWER_HEX: string := "0123456789abcdef"

  /** How one character is written: quotes and backslashes behind a backslash, the five named
      controls by letter, the others by four lower-case hexadecimal digits, the rest as it is. */
  lemma EscapesMean(c: char)
    ensures c == '"' || c == '\\' ==> SerdeEscape(c) == ['\\', c]
    ensures c as int == 0x08 ==> SerdeEscape(c) == "\\b"
    ensures c as int == 0x09 ==> SerdeEscape(c) == "\\t"
    ensures c as int == 0x0A ==> SerdeEscape(c) == "\\n"
    ensures c as int == 0x0C ==> SerdeEscape(c) == "\\f"
    ensures c as int == 0x0D ==> SerdeEscape(c) == "\\r"
    ensures c as int < 0x20 && !(0x08 <= c as int <= 0x0A || 0x0C <= c as int <= 0x0D) ==>
      SerdeEscape(c) == ['\\', 'u', '0', '0', if c as int >= 16 then '1' else '0', LOWER_HEX[c as int % 16]]
    ensures c as int >= 0x20 && c != '"' && c != '\\' ==> SerdeEscape(c) == [c]
  {
    assert HexDigit(c as int % 16) == LOWER_HEX[c as int % 16];
  }

  /** Why a bundle is rejected, in the order of the checks. */
  lemma Rejections(bundle: Bundle, keys: seq<TrustedKey>, crypto: Crypto)
    ensures bundle.version != 1 ==> VerifyBundle(bundle, keys, crypto) == Err(UnsupportedVersion(bundle.version))
    ensures bundle.version == 1 && bundle.alg != "ed25519" ==>
      VerifyBundle(bundle, keys, crypto) == Err(UnsupportedAlg(bundle.alg))
    ensures bundle.version == 1 && bundle.alg == "ed25519" && (forall k :: k in keys ==> k.keyId != bundle.keyId) ==>
      VerifyBundle(bundle, keys, crypto) == Err(UnknownKey(bundle.keyId))
    ensures bundle.version == 1 && bundle.alg == "ed25519" && (exists k :: k in keys && k.keyId == bundle.keyId) ==>
      VerifyBundle(bundle, keys, crypto).Ok? || VerifyBundle(bundle, keys, crypto) == Err(SignatureInvalid)
  {
    if k :| k in keys && k.keyId == bundle.keyId {
      var i :| 0 <= i < |keys| && keys[i] == k;
      assert FirstKey(keys, bundle.keyId).Some?;
    }
  }
}
