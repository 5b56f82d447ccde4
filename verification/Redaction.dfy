/** What redaction does to a JSON value, position by position. */
module Redaction {
  import opened Prelude
  import opened JsonModel

  const REDACTED_SECRET_VALUE := "**********"
  const FERNET_TOKEN_PREFIX := "gAAAAA"
  const TRAJECTORY_SECRET_FIELDS :=
    {"api_key", "aws_access_key_id", "aws_secret_access_key", "aws_session_token", "llm_api_key"}

  /** A string that carries a credential, given the key it is stored under (None inside a list). */
  predicate IsSecret(key: Option<string>, value: Json) {
    && value.JString?
    && value.s != "" && value.s != REDACTED_SECRET_VALUE
    && (FERNET_TOKEN_PREFIX <= value.s || (key.Some? && key.value in TRAJECTORY_SECRET_FIELDS))
  }

  /** One dictionary entry or list item after redaction. */
  function RedactSlot(key: Option<string>, value: Json): (redacted: Json)
    decreases value, 1
  {
    if IsSecret(key, value) then JString(REDACTED_SECRET_VALUE) else Redact(value)
  }

  /** The redacted value; only what is inside a container can be masked. */
  function Redact(j: Json): (redacted: Json)
    decreases j, 0
  {
    match j
    case JArray(items) => JArray(seq(|items|, i requires 0 <= i < |items| => RedactSlot(None, items[i])))
    case JObject(members) =>
      JObject(seq(|members|, i requires 0 <= i < |members| =>
                Member(members[i].key, RedactSlot(Some(members[i].key), members[i].value))))
    case _ => j
  }

  // ---------------------------------------------------------------- positions

  /** How many positions a value has directly inside it. */
  function Width(j: Json): (width: nat) {
    match j
    case JArray(items) => |items|
    case JObject(members) => |members|
    case _ => 0
  }

  function Child(j: Json, i: nat): (c: Json)
    requires i < Width(j)
    ensures c < j
  {
    match j
    case JArray(items) => items[i]
    case JObject(members) => assert members[i] < j; members[i].value
  }

  function ChildKey(j: Json, i: nat): (key: Option<string>)
    requires i < Width(j)
  {
    if j.JObject? then Some(j.members[i].key) else None
  }

  /** The value at a path of positions, if there is one. */
  function At(j: Json, path: seq<nat>): (value: Option<Json>) {
    if path == [] then Some(j)
    else if path[0] < Width(j) then At(Child(j, path[0]), path[1..])
    else None
  }

  /** The key under which the value at a path is stored. */
  function KeyAt(j: Json, path: seq<nat>): (key: Option<string>)
    requires path != [] && At(j, path).Some?
  {
    if |path| == 1 then ChildKey(j, path[0]) else KeyAt(Child(j, path[0]), path[1..])
  }

  ghost predicate SecretAt(j: Json, path: seq<nat>) {
    path != [] && At(j, path).Some? && IsSecret(KeyAt(j, path), At(j, path).value)
  }

  ghost predicate HoldsSecret(j: Json) {
    exists path :: SecretAt(j, path)
  }

  /** The same kind of value: equal scalars, lists of one length, objects with the same keys in the same order. */
  predicate SameFrame(a: Json, b: Json) {
    && a.JArray? == b.JArray? && a.JObject? == b.JObject?
    && Width(a) == Width(b)
    && (forall i: nat :: i < Width(a) ==> ChildKey(a, i) == ChildKey(b, i))
    && (!a.JArray? && !a.JObject? ==> a == b)
  }

  lemma {:induction false} RedactFrame(j: Json)
    ensures SameFrame(j, Redact(j))
    ensures forall i: nat :: i < Width(j) ==> Child(Redact(j), i) == RedactSlot(ChildKey(j, i), Child(j, i))
  {
  }

  lemma MaskIsNotSecret(key: Option<string>)
    ensures !IsSecret(key, JString(REDACTED_SECRET_VALUE))
  {
  }

  /**
    Redaction, position by position: the redacted tree has a value exactly where
    the original has one, under the same key; a secret has become the marker and
    everything else kept its frame.
   */
  lemma {:induction false} RedactedPositionByPosition(j: Json, path: seq<nat>)
    ensures At(j, path).None? <==> At(Redact(j), path).None?
    ensures At(j, path).Some? ==>
              && (path != [] ==> KeyAt(Redact(j), path) == KeyAt(j, path))
              && if SecretAt(j, path) then At(Redact(j), path).value == JString(REDACTED_SECRET_VALUE)
                 else
                   && At(Redact(j), path).value == Redact(At(j, path).value)
                   && SameFrame(At(j, path).value, At(Redact(j), path).value)
  {
    hide SameFrame, IsSecret;
    RedactFrame(j);
    SameFrameFacts(j, Redact(j));
    if path != [] && path[0] < Width(j) {
      var c := Child(j, path[0]);
      RedactFrame(c);
      if |path| == 1 {
        assert path[1..] == [];
      } else if IsSecret(ChildKey(j, path[0]), c) {
        SecretsAreLeaves(ChildKey(j, path[0]), c);
      } else {
        RedactedPositionByPosition(c, path[1..]);
      }
    }
  }

  lemma SameFrameFacts(a: Json, b: Json)
    requires SameFrame(a, b)
    ensures Width(a) == Width(b) && forall i: nat :: i < Width(a) ==> ChildKey(a, i) == ChildKey(b, i)
  {
  }

  lemma SecretsAreLeaves(key: Option<string>, value: Json)
    requires IsSecret(key, value)
    ensures Width(value) == 0 && Width(JString(REDACTED_SECRET_VALUE)) == 0
  {
  }

  /** No dictionary entry and no list item of the redacted tree, at any depth, carries a secret. */
  lemma {:induction false} NothingSecretRemains(j: Json)
    ensures !HoldsSecret(Redact(j))
  {
    forall path
      ensures !SecretAt(Redact(j), path)
    {
      RedactedPositionByPosition(j, path);
      hide IsSecret, At, KeyAt, Redact;
      if path != [] && At(j, path).Some? {
        MaskIsNotSecret(KeyAt(j, path));
        if !SecretAt(j, path) {
          OnlyStringsAreSecret(KeyAt(j, path), At(j, path).value);
        }
      }
    }
  }

  lemma {:induction false} OnlyStringsAreSecret(key: Option<string>, value: Json)
    requires !IsSecret(key, value)
    ensures !IsSecret(key, Redact(value))
  {
  }

  /** The tree changes exactly when it holds a secret. */
  lemma {:induction false} ChangesIffSecret(j: Json)
    ensures Redact(j) != j <==> HoldsSecret(j)
  {
    if HoldsSecret(j) {
      var path :| SecretAt(j, path);
      RedactedPositionByPosition(j, path);
      MaskIsNotSecret(KeyAt(j, path));
    } else {
      CleanIsFixed(j);
    }
  }

  lemma SecretChild(j: Json, i: nat)
    requires i < Width(j)
    ensures IsSecret(ChildKey(j, i), Child(j, i)) ==> SecretAt(j, [i])
    ensures HoldsSecret(Child(j, i)) ==> HoldsSecret(j)
  {
    hide IsSecret;
    assert At(j, [i]) == Some(Child(j, i)) by { assert [i][1..] == []; }
    if HoldsSecret(Child(j, i)) {
      var path :| SecretAt(Child(j, i), path);
      assert ([i] + path)[1..] == path;
      assert At(j, [i] + path) == At(Child(j, i), path);
      assert SecretAt(j, [i] + path);
    }
  }

  lemma {:induction false} CleanIsFixed(j: Json)
    requires !HoldsSecret(j)
    ensures Redact(j) == j
  {
    hide HoldsSecret, IsSecret;
    forall i: nat | i < Width(j)
      ensures RedactSlot(ChildKey(j, i), Child(j, i)) == Child(j, i)
    {
      SecretChild(j, i);
      assert !IsSecret(ChildKey(j, i), Child(j, i)) by {
        if IsSecret(ChildKey(j, i), Child(j, i)) { SecretMeansHolds(j, [i]); }
      }
      CleanIsFixed(Child(j, i));
    }
    EqualByChildren(j);
  }

  lemma SecretMeansHolds(j: Json, path: seq<nat>)
    requires SecretAt(j, path)
    ensures HoldsSecret(j)
  {
  }

  lemma {:induction false} EqualByChildren(j: Json)
    requires forall i: nat :: i < Width(j) ==> RedactSlot(ChildKey(j, i), Child(j, i)) == Child(j, i)
    ensures Redact(j) == j
  {
    hide IsSecret;
    match j
    case JArray(items) =>
      forall i | 0 <= i < |items|
        ensures RedactSlot(None, items[i]) == items[i]
      {
        assert Child(j, i) == items[i];
      }
      assert Redact(j).items == items;
    case JObject(members) =>
      forall i | 0 <= i < |members|
        ensures Member(members[i].key, RedactSlot(Some(members[i].key), members[i].value)) == members[i]
      {
        assert Child(j, i) == members[i].value;
      }
      assert Redact(j).members == members;
    case _ =>
  }

  /** Redacting twice is redacting once. */
  lemma {:induction false} RedactIsIdempotent(j: Json)
    ensures Redact(Redact(j)) == Redact(j)
  {
    NothingSecretRemains(j);
    CleanIsFixed(Redact(j));
  }

  // ------------------------------------------------------ credentials by text

  /** A Fernet token wherever it stands, or any text stored under a credential's field name. */
  ghost predicate CarriesCredential(key: Option<string>, text: string) {
    || "gAAAAA" <= text
    || (text != "" &&
        (key == Some("api_key") || key == Some("aws_access_key_id") || key == Some("aws_secret_access_key")
         || key == Some("aws_session_token") || key == Some("llm_api_key")))
  }

  lemma SecretMeansCredential(key: Option<string>, text: string)
    ensures IsSecret(key, JString(text)) <==> CarriesCredential(key, text) && text != "**********"
  {
    if "gAAAAA" <= text {
      assert text[0] == "gAAAAA"[0] == 'g' && "**********"[0] == '*';
    }
  }

  /** Every text of the tree below the root: ten asterisks for a credential, and otherwise itself. */
  lemma {:induction false} TextsByPath(j: Json, path: seq<nat>, text: string)
    requires path != [] && At(j, path) == Some(JString(text))
    ensures At(Redact(j), path) ==
            Some(JString(if CarriesCredential(KeyAt(j, path), text) then "**********" else text))
  {
    RedactedPositionByPosition(j, path);
    SecretMeansCredential(KeyAt(j, path), text);
    hide At, KeyAt, IsSecret, CarriesCredential;
  }

  /** Some text below the root is a credential that is not masked yet. */
  ghost predicate ShowsCredential(j: Json) {
    exists path, text ::
      && path != [] && At(j, path) == Some(JString(text))
      && CarriesCredential(KeyAt(j, path), text) && text != "**********"
  }

  /** A document is changed exactly when it shows a credential, and shows none afterwards. */
  lemma {:induction false} CredentialsAreWhatChanges(j: Json)
    ensures Redact(j) != j <==> ShowsCredential(j)
    ensures !ShowsCredential(Redact(j))
  {
    ChangesIffSecret(j);
    SecretsAreCredentials(j);
    SecretsAreCredentials(Redact(j));
    NothingSecretRemains(j);
  }

  lemma {:induction false} SecretsAreCredentials(j: Json)
    ensures HoldsSecret(j) <==> ShowsCredential(j)
  {
    hide At, KeyAt, CarriesCredential;
    if HoldsSecret(j) {
      var path :| SecretAt(j, path);
      SecretMeansCredential(KeyAt(j, path), At(j, path).value.s);
    }
    if ShowsCredential(j) {
      var path, text :|
        && path != [] && At(j, path) == Some(JString(text))
        && CarriesCredential(KeyAt(j, path), text) && text != "**********";
      SecretMeansCredential(KeyAt(j, path), text);
      assert SecretAt(j, path);
    }
  }
}
