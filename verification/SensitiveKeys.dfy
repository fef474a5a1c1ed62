/** Sensitive-key detection in the two places that do it: the deny-list of the core crate and the
    attribute-key check of the telemetry crate. */
module SensitiveKeys {
  import opened Wrappers
  import opened LogFilter

  datatype KeyError = InvalidName | SensitiveKey

  function ToLower(c: char): char {
    if 'A' <= c <= 'Z' then c - 'A' + 'a' else c
  }

  function Lower(s: string): (r: string)
    ensures |r| == |s| && forall i :: 0 <= i < |s| ==> r[i] == ToLower(s[i])
  {
    seq(|s|, i requires 0 <= i < |s| => ToLower(s[i]))
  }

  function Separator(c: char): char {
    if c == '-' || c == '.' then '_' else c
  }

  function Underscored(s: string): (r: string)
    ensures |r| == |s| && forall i :: 0 <= i < |s| ==> r[i] == Separator(s[i])
  {
    seq(|s|, i requires 0 <= i < |s| => Separator(s[i]))
  }

  predicate OccursAt(s: string, needle: string, i: int) {
    0 <= i <= |s| - |needle| && s[i..i + |needle|] == needle
  }

  predicate Contains(s: string, needle: string) {
    exists i :: 0 <= i <= |s| - |needle| && OccursAt(s, needle, i)
  }

  const DENY_LIST: seq<string> := [
    "api_key", "apikey", "authorization", "bearer", "cookie", "credential", "email", "jwt", "passphrase", "passwd",
    "password", "private_key", "pwd", "secret", "session", "signing_key", "token"]

  const TELEMETRY_LIST: seq<string> := [
    "authorization", "cookie", "password", "private_key", "secret", "session", "token"]

  predicate ContainsAny(s: string, needles: seq<string>) {
    exists k :: 0 <= k < |needles| && Contains(s, needles[k])
  }

  predicate IsSensitiveKey(key: string) {
    ContainsAny(Underscored(Lower(key)), DENY_LIST)
  }

  function ValidateAttributeKey(key: string): Result<(), KeyError> {
    if !ValidIdentifier(key) then Failure(InvalidName)
    else if ContainsAny(Lower(key), TELEMETRY_LIST) then Failure(SensitiveKey)
    else Success(())
  }

  lemma UnderscoringKeepsOccurrences(s: string, needle: string)
    requires Contains(s, needle) && Underscored(needle) == needle
    ensures Contains(Underscored(s), needle)
  {
    var i :| 0 <= i <= |s| - |needle| && OccursAt(s, needle, i);
    var part := Underscored(s)[i..i + |needle|];
    forall j | 0 <= j < |needle| ensures part[j] == needle[j] {
      assert s[i + j] == s[i..i + |needle|][j];
      assert Underscored(needle)[j] == Separator(needle[j]);
    }
    assert OccursAt(Underscored(s), needle, i);
  }

  lemma TelemetryNeedle(k: nat) returns (d: nat)
    requires k < |TELEMETRY_LIST|
    ensures d < |DENY_LIST| && DENY_LIST[d] == TELEMETRY_LIST[k]
    ensures Underscored(TELEMETRY_LIST[k]) == TELEMETRY_LIST[k]
  {
    d := [2, 4, 10, 11, 13, 14, 16][k];
  }

  /** Whatever telemetry rejects as sensitive, the deny-list flags too. */
  lemma TelemetryRejectsOnlyFlaggedKeys(key: string)
    requires ValidateAttributeKey(key) == Failure(SensitiveKey)
    ensures IsSensitiveKey(key)
  {
    var k :| 0 <= k < |TELEMETRY_LIST| && Contains(Lower(key), TELEMETRY_LIST[k]);
    var d := TelemetryNeedle(k);
    UnderscoringKeepsOccurrences(Lower(key), TELEMETRY_LIST[k]);
    assert Contains(Underscored(Lower(key)), DENY_LIST[d]);
  }

  predicate IsSeparator(c: char) {
    c == '-' || c == '.' || c == '_'
  }

  predicate CaseVariant(upper: char, lower: char) {
    'A' <= upper <= 'Z' && lower as int == upper as int + 32
  }

  /** Two spellings that differ only in ASCII case and in the choice of '-', '.' or '_'. */
  ghost predicate SameSpelling(a: string, b: string) {
    |a| == |b| && forall i :: 0 <= i < |a| ==>
      a[i] == b[i] || CaseVariant(a[i], b[i]) || CaseVariant(b[i], a[i]) || (IsSeparator(a[i]) && IsSeparator(b[i]))
  }

  lemma SpellingDoesNotMatter(a: string, b: string)
    requires SameSpelling(a, b)
    ensures IsSensitiveKey(a) <==> IsSensitiveKey(b)
  {
    assert Underscored(Lower(a)) == Underscored(Lower(b));
  }

  lemma OccurrenceShifts(before: string, s: string, after: string, needle: string, i: int)
    requires OccursAt(s, needle, i)
    ensures OccursAt(before + s + after, needle, |before| + i)
  {
    var at := |before| + i;
    assert (before + s + after)[at..at + |needle|] == s[i..i + |needle|];
  }

  lemma EmbeddingKeepsAny(before: string, s: string, after: string, needles: seq<string>)
    requires ContainsAny(s, needles)
    ensures ContainsAny(before + s + after, needles)
  {
    var k :| 0 <= k < |needles| && Contains(s, needles[k]);
    var i :| 0 <= i <= |s| - |needles[k]| && OccursAt(s, needles[k], i);
    OccurrenceShifts(before, s, after, needles[k], i);
    assert Contains(before + s + after, needles[k]);
  }

  lemma LoweringDistributes(a: string, b: string, c: string)
    ensures Underscored(Lower(a + b + c)) == Underscored(Lower(a)) + Underscored(Lower(b)) + Underscored(Lower(c))
  {
  }

  /** Surrounding text never hides a sensitive name. */
  lemma EmbeddingKeepsSensitivity(before: string, key: string, after: string)
    requires IsSensitiveKey(key)
    ensures IsSensitiveKey(before + key + after)
  {
    var left, right := Underscored(Lower(before)), Underscored(Lower(after));
    EmbeddingKeepsAny(left, Underscored(Lower(key)), right, DENY_LIST);
    LoweringDistributes(before, key, after);
  }

  // ---------------------------------------------------------------- exactly which keys

  predicate FlaggedName(name: string) {
    name in {"api_key", "apikey", "authorization", "bearer", "cookie", "credential", "email", "jwt", "passphrase",
             "passwd", "password", "private_key", "pwd", "secret", "session", "signing_key", "token"}
  }

  predicate TelemetryName(name: string) {
    name in {"authorization", "cookie", "password", "private_key", "secret", "session", "token"}
  }

  predicate NameChar(c: char) {
    'a' <= c <= 'z' || c == '_'
  }

  lemma DenyListIs(name: string)
    ensures name in DENY_LIST <==> FlaggedName(name)
    ensures name in TELEMETRY_LIST <==> TelemetryName(name)
  {
  }

  ghost predicate Plain(name: string) {
    forall i :: 0 <= i < |name| ==> NameChar(name[i])
  }

  lemma PlainNames1(name: string)
    requires name in {"api_key", "apikey", "authorization", "bearer"}
    ensures Plain(name)
  {
  }

  lemma PlainNames2(name: string)
    requires name in {"cookie", "credential", "email", "jwt"}
    ensures Plain(name)
  {
  }

  lemma PlainNames3(name: string)
    requires name in {"passphrase", "passwd", "password", "private_key"}
    ensures Plain(name)
  {
  }

  lemma PlainNames4(name: string)
    requires name in {"pwd", "secret", "session", "signing_key", "token"}
    ensures Plain(name)
  {
  }

  lemma PlainNamesAreNormal(name: string)
    requires Plain(name)
    ensures Lower(name) == name && Underscored(name) == name
  {
  }

  lemma ListedNamesAreNormal(name: string)
    requires FlaggedName(name)
    ensures Lower(name) == name && Underscored(name) == name
  {
    if name in {"api_key", "apikey", "authorization", "bearer"} {
      PlainNames1(name);
    } else if name in {"cookie", "credential", "email", "jwt"} {
      PlainNames2(name);
    } else if name in {"passphrase", "passwd", "password", "private_key"} {
      PlainNames3(name);
    } else {
      PlainNames4(name);
    }
    PlainNamesAreNormal(name);
  }

  lemma NormalSpelling(part: string)
    ensures SameSpelling(part, Underscored(Lower(part)))
  {
  }

  lemma SameNormal(a: string, b: string)
    requires SameSpelling(a, b)
    ensures Underscored(Lower(a)) == Underscored(Lower(b))
  {
  }

  lemma NormalOfSlice(key: string, i: nat, j: nat)
    requires i <= j <= |key|
    ensures Underscored(Lower(key))[i..j] == Underscored(Lower(key[i..j]))
    ensures Lower(key)[i..j] == Lower(key[i..j])
  {
  }

  ghost predicate SpeltAt(key: string, name: string, i: int) {
    0 <= i <= |key| - |name| && SameSpelling(key[i..i + |name|], name)
  }

  lemma SpellingIsFlagged(key: string, name: string, i: int)
    requires FlaggedName(name) && SpeltAt(key, name, i)
    ensures IsSensitiveKey(key)
  {
    DenyListIs(name);
    ListedNamesAreNormal(name);
    NormalOfSlice(key, i, i + |name|);
    SameNormal(key[i..i + |name|], name);
    assert OccursAt(Underscored(Lower(key)), name, i);
    var k :| 0 <= k < |DENY_LIST| && DENY_LIST[k] == name;
    assert Contains(Underscored(Lower(key)), DENY_LIST[k]);
  }

  /** A key is sensitive exactly when some part of it spells one of the seventeen names, in any case
      and with any of the three separators. */
  lemma SensitiveIff(key: string)
    ensures IsSensitiveKey(key) <==> exists name, i :: FlaggedName(name) && SpeltAt(key, name, i)
  {
    var normal := Underscored(Lower(key));
    if IsSensitiveKey(key) {
      var k :| 0 <= k < |DENY_LIST| && Contains(normal, DENY_LIST[k]);
      var name := DENY_LIST[k];
      var i :| 0 <= i <= |normal| - |name| && OccursAt(normal, name, i);
      DenyListIs(name);
      NormalOfSlice(key, i, i + |name|);
      NormalSpelling(key[i..i + |name|]);
      assert SpeltAt(key, name, i);
    }
    if name, i :| FlaggedName(name) && SpeltAt(key, name, i) {
      SpellingIsFlagged(key, name, i);
    }
  }

  ghost predicate SameLetters(a: string, b: string) {
    |a| == |b| && forall i :: 0 <= i < |a| ==> a[i] == b[i] || CaseVariant(a[i], b[i])
  }

  ghost predicate LettersAt(key: string, name: string, i: int) {
    0 <= i <= |key| - |name| && SameLetters(key[i..i + |name|], name)
  }

  lemma LettersAreRejected(key: string, name: string, i: int)
    requires TelemetryName(name) && LettersAt(key, name, i)
    ensures ContainsAny(Lower(key), TELEMETRY_LIST)
  {
    DenyListIs(name);
    ListedNamesAreNormal(name);
    NormalOfSlice(key, i, i + |name|);
    LoweredLetters(key[i..i + |name|], name);
    assert OccursAt(Lower(key), name, i);
    var k :| 0 <= k < |TELEMETRY_LIST| && TELEMETRY_LIST[k] == name;
    assert Contains(Lower(key), TELEMETRY_LIST[k]);
  }

  lemma RejectedHasLetters(key: string) returns (name: string, i: int)
    requires ContainsAny(Lower(key), TELEMETRY_LIST)
    ensures TelemetryName(name) && LettersAt(key, name, i)
  {
    var lower := Lower(key);
    var k :| 0 <= k < |TELEMETRY_LIST| && Contains(lower, TELEMETRY_LIST[k]);
    name := TELEMETRY_LIST[k];
    i :| 0 <= i <= |lower| - |name| && OccursAt(lower, name, i);
    DenyListIs(name);
    NormalOfSlice(key, i, i + |name|);
  }

  /** Telemetry takes a key exactly when it is a valid identifier that spells none of its seven
      names, in any case; and it says which of the two is wrong. */
  lemma TelemetryTakesIff(key: string)
    ensures ValidateAttributeKey(key) == Failure(InvalidName) <==> !ValidIdentifier(key)
    ensures ValidateAttributeKey(key) == Failure(SensitiveKey) <==>
            ValidIdentifier(key) && exists name, i :: TelemetryName(name) && LettersAt(key, name, i)
  {
    if ContainsAny(Lower(key), TELEMETRY_LIST) {
      var name, i := RejectedHasLetters(key);
    }
    if name, i :| TelemetryName(name) && LettersAt(key, name, i) {
      LettersAreRejected(key, name, i);
    }
  }

  lemma LoweredLetters(part: string, name: string)
    requires SameLetters(part, name) && Lower(name) == name
    ensures Lower(part) == name
  {
    forall i | 0 <= i < |part| ensures Lower(part)[i] == name[i] {
      assert name[i] == Lower(name)[i];
    }
  }
}
