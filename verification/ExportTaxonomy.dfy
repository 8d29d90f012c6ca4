/** The forbidden-export classifier of `src/export_taxonomy.rs`. */
module ExportTaxonomy {
  import opened Common
  import opened JsonValues

  datatype Class =
    | PrivateKeyMaterial
    | MasterThresholdSecret
    | SignedPolicyRuleSigningKey
    | BiometricBehavioralEmbedding

  /** Lower is more severe. */
  function Rank(c: Class): nat {
    match c
    case PrivateKeyMaterial => 0
    case MasterThresholdSecret => 1
    case SignedPolicyRuleSigningKey => 2
    case BiometricBehavioralEmbedding => 3
  }

  function MostSevere(a: Class, b: Class): Class {
    if Rank(b) < Rank(a) then b else a
  }

  // ----- Text ------------------------------------------------------------

  predicate OccursAt(s: string, needle: string, i: int) {
    0 <= i <= |s| - |needle| && s[i..i + |needle|] == needle
  }

  predicate Contains(s: string, needle: string) {
    exists i :: 0 <= i <= |s| && OccursAt(s, needle, i)
  }

  function Trim(s: string): string
    decreases |s|
  {
    if s == "" then ""
    else if IsWhitespace(s[0]) then Trim(s[1..])
    else if IsWhitespace(s[|s| - 1]) then Trim(s[..|s| - 1])
    else s
  }

  const PEM_BEGIN_SIGIL := "-----BEGIN"
  const PEM_PRIVATE_KEY_TOKEN := "PRIVATE KEY-----"

  const PRIVATE_KEY_FIELD_MARKERS: seq<string> := [
    "private_key", "secret_key", "secret_key_bytes", "signing_secret", "keypair_secret", "ed25519_secret"]

  const MASTER_THRESHOLD_FIELD_MARKERS: seq<string> := [
    "master_secret", "master_key", "threshold_share", "threshold_secret", "shamir_share"]

  const RULE_SIGNING_KEY_FIELD_MARKERS: seq<string> := [
    "rule_signing_key", "governance_signing_key", "policy_signing_key", "operator_signing_key"]

  const EMBEDDING_CLASS_KEYS: seq<string> := ["embedding_class", "embedding_kind", "biometric_class"]

  predicate AnyMarker(lower: string, markers: seq<string>) {
    exists m :: m in markers && Contains(lower, m)
  }

  function ClassifyText(s: string): Option<Class> {
    if Contains(s, PEM_BEGIN_SIGIL) && Contains(s, PEM_PRIVATE_KEY_TOKEN) then Some(PrivateKeyMaterial) else None
  }

  predicate IsEmbeddingTag(lower: string, child: Json) {
    && lower in EMBEDDING_CLASS_KEYS && child.JString?
    && Lower(Trim(child.text)) in ["biometric", "behavioral"]
  }

  function ClassifyKey(key: string, child: Json): Option<Class> {
    var lower := Lower(key);
    if IsEmbeddingTag(lower, child) then Some(BiometricBehavioralEmbedding)
    else if AnyMarker(lower, PRIVATE_KEY_FIELD_MARKERS) then Some(PrivateKeyMaterial)
    else if AnyMarker(lower, MASTER_THRESHOLD_FIELD_MARKERS) then Some(MasterThresholdSecret)
    else if AnyMarker(lower, RULE_SIGNING_KEY_FIELD_MARKERS) then Some(SignedPolicyRuleSigningKey)
    else None
  }

  // What the text predicates say.

  lemma ContainsMeans(s: string, needle: string)
    ensures Contains(s, needle) <==> exists before, after :: s == before + needle + after
  {
    if Contains(s, needle) {
      var i :| 0 <= i <= |s| && OccursAt(s, needle, i);
      assert s == s[..i] + needle + s[i + |needle|..];
    }
    if before, after :| s == before + needle + after {
      assert OccursAt(s, needle, |before|);
    }
  }

  /** A text is private key material iff it holds a PEM begin mark and a PEM private key mark. */
  lemma PemTexts(s: string)
    ensures ClassifyText(s) == Some(PrivateKeyMaterial) <==>
              && (exists before, after :: s == before + "-----BEGIN" + after)
              && (exists before, after :: s == before + "PRIVATE KEY-----" + after)
    ensures ClassifyText(s) != Some(PrivateKeyMaterial) ==> ClassifyText(s) == None
  {
    ContainsMeans(s, PEM_BEGIN_SIGIL);
    ContainsMeans(s, PEM_PRIVATE_KEY_TOKEN);
  }

  predicate AllSpace(s: string) {
    forall i :: 0 <= i < |s| ==> IsWhitespace(s[i])
  }

  /** Trimming takes the spaces at both ends, all of them and nothing else. */
  lemma {:induction false} TrimMeans(s: string) returns (left: string, right: string)
    ensures s == left + Trim(s) + right && AllSpace(left) && AllSpace(right)
    ensures var t := Trim(s); t != "" ==> !IsWhitespace(t[0]) && !IsWhitespace(t[|t| - 1])
    decreases |s|
  {
    hide IsWhitespace;
    if s == "" {
      left, right := "", "";
    } else if IsWhitespace(s[0]) {
      left, right := TrimMeans(s[1..]);
      left := [s[0]] + left;
      assert s == [s[0]] + s[1..];
    } else if IsWhitespace(s[|s| - 1]) {
      left, right := TrimMeans(s[..|s| - 1]);
      right := right + [s[|s| - 1]];
      assert s == s[..|s| - 1] + [s[|s| - 1]];
    } else {
      left, right := "", "";
      assert s == "" + s + "";
    }
  }

  /** The tag is read without regard to case, and to spaces around its value. */
  lemma TagIgnoresCase(key: string, text: string)
    ensures IsEmbeddingTag(Lower(key), JString(text)) <==>
              && (SameUpToCase(key, "embedding_class")
                  || SameUpToCase(key, "embedding_kind") || SameUpToCase(key, "biometric_class"))
              && (SameUpToCase(Trim(text), "biometric") || SameUpToCase(Trim(text), "behavioral"))
  {
    hide Lower, SameUpToCase, Trim;
    TagWord(key, "embedding_class");
    TagWord(key, "embedding_kind");
    TagWord(key, "biometric_class");
    TagWord(Trim(text), "biometric");
    TagWord(Trim(text), "behavioral");
  }

  lemma TagWord(s: string, word: string)
    requires forall i :: 0 <= i < |word| ==> !('A' <= word[i] <= 'Z')
    ensures Lower(s) == word <==> SameUpToCase(s, word)
  {
    LowerForgetsCase(s, word);
    LowerKeeps(word);
  }

  // ----- The reference definition ----------------------------------------

  function AsSet(o: Option<Class>): set<Class> {
    match o case None => {} case Some(c) => {c}
  }

  /** Every class some marker of the key, or its embedding tag, stands for. */
  function KeyClasses(key: string, child: Json): set<Class> {
    var lower := Lower(key);
    (if IsEmbeddingTag(lower, child) then {BiometricBehavioralEmbedding} else {})
    + (if AnyMarker(lower, PRIVATE_KEY_FIELD_MARKERS) then {PrivateKeyMaterial} else {})
    + (if AnyMarker(lower, MASTER_THRESHOLD_FIELD_MARKERS) then {MasterThresholdSecret} else {})
    + (if AnyMarker(lower, RULE_SIGNING_KEY_FIELD_MARKERS) then {SignedPolicyRuleSigningKey} else {})
  }

  /** Every class matched at any key or string anywhere in the value. */
  function Matches(v: Json): set<Class> {
    match v
    case JString(s) => AsSet(ClassifyText(s))
    case JArray(items) => set x, c | x in items && c in Matches(x) :: c
    case JObject(entries) =>
      set e, c | e in entries && c in KeyClasses(e.0, e.1) + Matches(e.1) :: c
    case _ => {}
  }

  /** The most severe of a set of classes. */
  function Worst(cs: set<Class>): Option<Class> {
    if PrivateKeyMaterial in cs then Some(PrivateKeyMaterial)
    else if MasterThresholdSecret in cs then Some(MasterThresholdSecret)
    else if SignedPolicyRuleSigningKey in cs then Some(SignedPolicyRuleSigningKey)
    else if BiometricBehavioralEmbedding in cs then Some(BiometricBehavioralEmbedding)
    else None
  }

  lemma WorstIsMinimum(cs: set<Class>)
    ensures Worst(cs).None? <==> cs == {}
    ensures Worst(cs).Some? ==>
              Worst(cs).value in cs && forall c :: c in cs ==> Rank(Worst(cs).value) <= Rank(c)
  {
    if c :| c in cs {
      match c
      case PrivateKeyMaterial =>
      case MasterThresholdSecret =>
      case SignedPolicyRuleSigningKey =>
      case BiometricBehavioralEmbedding =>
    }
  }

  // ----- One key ---------------------------------------------------------

  lemma Inside(s: string, needle: string, j: nat)
    requires j < |needle| && Contains(s, needle)
    ensures exists k :: j <= k <= |s| - |needle| + j && s[k] == needle[j]
  {
    var i :| 0 <= i <= |s| && OccursAt(s, needle, i);
    assert s[i..i + |needle|][j] == s[i + j];
  }

  lemma NotInside(s: string, needle: string, j: nat)
    requires j < |needle| && needle[j] !in s
    ensures !Contains(s, needle)
  {
    hide Contains;
    if Contains(s, needle) {
      Inside(s, needle, j);
    }
  }

  /** The names of the embedding tag contain none of the field markers. */
  lemma TagKeysHaveNoMarker(lower: string)
    requires lower in EMBEDDING_CLASS_KEYS
    ensures !AnyMarker(lower, PRIVATE_KEY_FIELD_MARKERS)
    ensures !AnyMarker(lower, MASTER_THRESHOLD_FIELD_MARKERS)
    ensures !AnyMarker(lower, RULE_SIGNING_KEY_FIELD_MARKERS)
  {
    NoPrivateMarker(lower);
    NoMasterMarker(lower);
    NoRuleMarker(lower);
  }

  lemma NoPrivateMarker(lower: string)
    requires lower in EMBEDDING_CLASS_KEYS
    ensures !AnyMarker(lower, PRIVATE_KEY_FIELD_MARKERS)
  {
    hide Contains;
    NoKeyWord(lower);
    NoSecretWord(lower);
  }

  lemma NoKeyWord(lower: string)
    requires lower in EMBEDDING_CLASS_KEYS
    ensures !Contains(lower, "private_key") && !Contains(lower, "secret_key") && !Contains(lower, "secret_key_bytes")
  {
    hide Contains;
    NotInside(lower, "private_key", 10);
    NotInside(lower, "secret_key", 9);
    NotInside(lower, "secret_key_bytes", 9);
  }

  lemma NoSecretWord(lower: string)
    requires lower in EMBEDDING_CLASS_KEYS
    ensures !Contains(lower, "signing_secret") && !Contains(lower, "keypair_secret")
    ensures !Contains(lower, "ed25519_secret")
  {
    hide Contains;
    NotInside(lower, "signing_secret", if lower == "biometric_class" then 3 else 13);
    NotInside(lower, "keypair_secret", 2);
    NotInside(lower, "ed25519_secret", 2);
  }

  lemma NoMasterMarker(lower: string)
    requires lower in EMBEDDING_CLASS_KEYS
    ensures !AnyMarker(lower, MASTER_THRESHOLD_FIELD_MARKERS)
  {
    NoMasterSecret(lower);
    hide Contains;
    NotInside(lower, "master_key", 9);
    NotInside(lower, "threshold_share", 1);
    NotInside(lower, "threshold_secret", 1);
    NotInside(lower, "shamir_share", 1);
  }

  lemma NoMasterSecret(lower: string)
    requires lower in EMBEDDING_CLASS_KEYS
    ensures !Contains(lower, "master_secret")
  {
    hide Contains;
    if lower == "biometric_class" {
      if Contains(lower, "master_secret") {
        Inside(lower, "master_secret", 0);
      }
    } else {
      NotInside(lower, "master_secret", 3);
    }
  }

  lemma NoRuleMarker(lower: string)
    requires lower in EMBEDDING_CLASS_KEYS
    ensures !AnyMarker(lower, RULE_SIGNING_KEY_FIELD_MARKERS)
  {
    hide Contains;
    NotInside(lower, "rule_signing_key", 15);
    NotInside(lower, "governance_signing_key", 21);
    NotInside(lower, "policy_signing_key", 17);
    NotInside(lower, "operator_signing_key", 19);
  }

  /**
   * The order in which a key is tried against the tables hides nothing: the
   * least severe test comes first, and still the most severe class that any
   * marker of the key stands for is the one named.
   */
  lemma KeyNamesItsWorst(key: string, child: Json)
    ensures ClassifyKey(key, child) == Worst(KeyClasses(key, child))
  {
    var lower := Lower(key);
    if IsEmbeddingTag(lower, child) {
      TagKeysHaveNoMarker(lower);
    }
    hide AnyMarker, Lower;
  }

  // ----- The short-circuiting walk ---------------------------------------

  /** Fold one match into the accumulator, keeping the most severe. */
  method Fold(acc: Option<Class>, c: Class) returns (r: Option<Class>)
    ensures r == Worst(AsSet(acc) + {c})
  {
    r := Some(if acc.Some? then MostSevere(acc.value, c) else c);
  }

  const TOP: Option<Class> := Some(PrivateKeyMaterial)

  /**
   * The recursive worker with its early returns: it leaves in the accumulator
   * the most severe of what was there and of every match in the value.
   */
  method ClassifyInto(v: Json, acc: Option<Class>) returns (r: Option<Class>)
    ensures r == Worst(AsSet(acc) + Matches(v))
    decreases v, 1
  {
    hide Worst, ClassifyText, ClassifyKey;
    WorstOfOne(acc);
    if acc == TOP {
      WorstOnTop(AsSet(acc), AsSet(acc) + Matches(v));
      return acc;
    }
    r := acc;
    assert AsSet(acc) + {} == AsSet(acc);
    match v {
      case JString(s) =>
        var c := ClassifyText(s);
        if c.Some? {
          r := Fold(r, c.value);
        }
      case JArray(items) =>
        r := ClassifyItems(items, acc);
      case JObject(entries) =>
        r := ClassifyEntries(entries, acc);
      case _ =>
    }
  }

  /** The loop over an array's items. */
  method ClassifyItems(items: seq<Json>, acc: Option<Class>) returns (r: Option<Class>)
    ensures r == Worst(AsSet(acc) + Matches(JArray(items)))
    decreases items, 0
  {
    hide Worst, ClassifyText, ClassifyKey, TOP;
    WorstOfOne(acc);
    r := acc;
    ghost var seen: set<Class> := {};
    assert AsSet(acc) + seen == AsSet(acc);
    for i := 0 to |items|
      invariant seen == Matches(JArray(items[..i]))
      invariant r == Worst(AsSet(acc) + seen)
    {
      ItemsSnoc(items, i);
      WorstAbsorbs(AsSet(acc) + seen, Matches(items[i]));
      r := ClassifyInto(items[i], r);
      assert AsSet(acc) + seen + Matches(items[i]) == AsSet(acc) + (seen + Matches(items[i]));
      seen := seen + Matches(items[i]);
      if r == TOP {
        WorstOnTop(AsSet(acc) + seen, AsSet(acc) + Matches(JArray(items)));
        return;
      }
    }
    assert items[..|items|] == items;
  }

  lemma ItemsSnoc(items: seq<Json>, i: nat)
    requires i < |items|
    ensures Matches(JArray(items[..i + 1])) == Matches(JArray(items[..i])) + Matches(items[i])
    ensures Matches(JArray(items[..i + 1])) <= Matches(JArray(items))
  {
    assert items[..i + 1] == items[..i] + [items[i]];
    assert items[i] in items[..i + 1];
  }

  /** The loop over an object's entries. */
  method ClassifyEntries(entries: seq<(string, Json)>, acc: Option<Class>) returns (r: Option<Class>)
    ensures r == Worst(AsSet(acc) + Matches(JObject(entries)))
    decreases entries, 0
  {
    hide Worst, ClassifyText, ClassifyKey, KeyClasses, TOP;
    WorstOfOne(acc);
    r := acc;
    ghost var seen: set<Class> := {};
    assert AsSet(acc) + seen == AsSet(acc);
    for i := 0 to |entries|
      invariant seen == Matches(JObject(entries[..i]))
      invariant r == Worst(AsSet(acc) + seen)
    {
      EntriesSnoc(entries, i);
      var (key, child) := entries[i];
      var c := ClassifyKey(key, child);
      ghost var before := r;
      if c.Some? {
        r := Fold(r, c.value);
      }
      ghost var sofar := AsSet(acc) + seen;
      KeyFolds(sofar, before, key, child, r);
      WorstAbsorbs(sofar + KeyClasses(key, child), Matches(child));
      r := ClassifyInto(child, r);
      assert sofar + KeyClasses(key, child) + Matches(child) == AsSet(acc) + (seen + EntryMatches(entries[i]));
      seen := seen + EntryMatches(entries[i]);
      if r == TOP {
        WorstOnTop(AsSet(acc) + seen, AsSet(acc) + Matches(JObject(entries)));
        return;
      }
    }
    assert entries[..|entries|] == entries;
  }

  /** Folding in a key's class is folding in everything its markers stand for. */
  lemma KeyFolds(seen: set<Class>, before: Option<Class>, key: string, child: Json, after: Option<Class>)
    requires before == Worst(seen)
    requires after == match ClassifyKey(key, child) case Some(c) => Worst(AsSet(before) + {c}) case None => before
    ensures after == Worst(seen + KeyClasses(key, child))
  {
    hide Worst, ClassifyKey, KeyClasses;
    var keys := KeyClasses(key, child);
    var c := ClassifyKey(key, child);
    KeyNamesItsWorst(key, child);
    WorstAbsorbs(seen, AsSet(c));
    assert seen + AsSet(c) == AsSet(c) + seen && seen + keys == keys + seen;
    WorstAbsorbs(keys, seen);
    if c.None? {
      assert AsSet(c) + seen == seen;
    }
  }

  lemma EntriesSnoc(entries: seq<(string, Json)>, i: nat)
    requires i < |entries|
    ensures Matches(JObject(entries[..i + 1])) == Matches(JObject(entries[..i])) + EntryMatches(entries[i])
    ensures Matches(JObject(entries[..i + 1])) <= Matches(JObject(entries))
  {
    hide KeyClasses;
    assert entries[..i + 1] == entries[..i] + [entries[i]];
    assert entries[i] in entries[..i + 1];
  }

  function EntryMatches(e: (string, Json)): set<Class> {
    KeyClasses(e.0, e.1) + Matches(e.1)
  }

  lemma WorstOfOne(o: Option<Class>)
    ensures Worst(AsSet(o)) == o
  {
    if o.Some? {
      match o.value
      case PrivateKeyMaterial =>
      case MasterThresholdSecret =>
      case SignedPolicyRuleSigningKey =>
      case BiometricBehavioralEmbedding =>
    }
  }

  lemma WorstAbsorbs(a: set<Class>, b: set<Class>)
    ensures Worst(AsSet(Worst(a)) + b) == Worst(a + b)
  {
    WorstIsMinimum(a);
  }

  lemma WorstOnTop(a: set<Class>, b: set<Class>)
    requires Worst(a) == TOP && a <= b
    ensures Worst(b) == TOP
  {}

  /** The most severe class matched anywhere in the tree, and none iff nothing matches. */
  method ClassifyExportValue(v: Json) returns (found: Option<Class>)
    ensures found == Worst(Matches(v))
    ensures found.None? <==> Matches(v) == {}
    ensures found.Some? ==> found.value in Matches(v) && forall c :: c in Matches(v) ==> Rank(found.value) <= Rank(c)
  {
    found := ClassifyInto(v, None);
    assert AsSet(None) + Matches(v) == Matches(v);
    WorstIsMinimum(Matches(v));
  }

  // ----- What does not change the verdict --------------------------------

  /** Entry order and repetition do not matter. */
  lemma EntryOrderIrrelevant(entries: seq<(string, Json)>, again: seq<(string, Json)>)
    requires forall e :: e in entries <==> e in again
    ensures Matches(JObject(entries)) == Matches(JObject(again))
  {}

  /** A value's matches are among those of anything it is nested in. */
  predicate ChildOf(v: Json, parent: Json) {
    match parent
    case JArray(items) => v in items
    case JObject(entries) => exists e :: e in entries && e.1 == v
    case _ => false
  }

  lemma ChildMatches(v: Json, parent: Json)
    requires ChildOf(v, parent)
    ensures Matches(v) <= Matches(parent)
  {
    forall c | c in Matches(v) ensures c in Matches(parent) {
      match parent
      case JArray(items) => assert v in items;
      case JObject(entries) =>
        var e :| e in entries && e.1 == v;
        assert c in KeyClasses(e.0, e.1) + Matches(e.1);
    }
  }

  lemma {:induction false} NestingNeverLowers(chain: seq<Json>)
    requires |chain| >= 1
    requires forall i :: 0 <= i < |chain| - 1 ==> ChildOf(chain[i], chain[i + 1])
    ensures Matches(chain[0]) <= Matches(chain[|chain| - 1])
    ensures var inner, outer := Worst(Matches(chain[0])), Worst(Matches(chain[|chain| - 1]));
      inner.Some? ==> outer.Some? && Rank(outer.value) <= Rank(inner.value)
    decreases |chain|
  {
    var n := |chain| - 1;
    if n > 0 {
      NestingNeverLowers(chain[..n]);
      assert chain[..n][n - 1] == chain[n - 1];
      assert ChildOf(chain[n - 1], chain[n]);
      ChildMatches(chain[n - 1], chain[n]);
    }
    WorstIsMinimum(Matches(chain[0]));
    WorstIsMinimum(Matches(chain[n]));
  }
}
