/**
 The redactor of `p13_provider_contract.py` and the checker it has to satisfy, over every
 JSON tree: what is redacted, what is left alone, and where the checker looks less closely.
 */
module Redaction {

  datatype Json =
    | Null
    | Bool(b: bool)
    | Num(n: int)
    | Str(s: string)
    | Arr(items: Items)
    | Obj(members: Members)

  datatype Items = NoItems | Item(head: Json, tail: Items)

  datatype Members = NoMembers | Member(key: string, value: Json, rest: Members)

  const REDACTED := Str("<redacted>")

  // ----- Secret names: token|password|secret|private[_-]?key|authorization|cookie, ignoring case -----

  /** Lower case, with the characters beyond ASCII that Python's case-insensitive match equates with i, s and k. */
  function Fold(c: char): char {
    if 'A' <= c <= 'Z' then 'a' + (c - 'A')
    else if c == '\U{130}' || c == '\U{131}' then 'i'
    else if c == '\U{17F}' then 's'
    else if c == '\U{212A}' then 'k'
    else c
  }

  predicate StartsWithFolded(s: string, word: string) {
    |word| <= |s| && forall i :: 0 <= i < |word| ==> Fold(s[i]) == word[i]
  }

  predicate ContainsFolded(s: string, word: string) {
    exists i :: 0 <= i <= |s| && StartsWithFolded(s[i..], word)
  }

  const SECRET_WORDS := [
    "token", "password", "secret", "privatekey", "private_key", "private-key", "authorization", "cookie"]

  predicate IsSecretName(key: string) {
    exists w :: w in SECRET_WORDS && ContainsFolded(key, w)
  }

  // ----- redact -----

  function Redact(v: Json, tokenObject: bool): Json {
    match v
    case Obj(members) => Obj(RedactMembers(members, tokenObject))
    case Arr(items) => Arr(RedactItems(items))
    case _ => v
  }

  function RedactItems(items: Items): Items {
    match items
    case NoItems => NoItems
    case Item(head, tail) => Item(Redact(head, false), RedactItems(tail))
  }

  function RedactMembers(members: Members, tokenObject: bool): Members {
    match members
    case NoMembers => NoMembers
    case Member(key, value, rest) =>
      Member(
        key,
        if key == "token" && value.Obj? then Redact(value, true)
        else if IsSecretName(key) && !(tokenObject && key == "id") then REDACTED
        else if tokenObject && key == "id" then REDACTED
        else Redact(value, false),
        RedactMembers(rest, tokenObject))
  }

  // ----- contains_unsanitized_secret -----

  predicate Unsanitized(v: Json) {
    match v
    case Obj(members) => UnsanitizedMembers(members)
    case Arr(items) => UnsanitizedItems(items)
    case _ => false
  }

  predicate UnsanitizedItems(items: Items) {
    items.Item? && (Unsanitized(items.head) || UnsanitizedItems(items.tail))
  }

  predicate UnsanitizedMembers(members: Members) {
    members.Member? &&
    ((if members.key == "token" && members.value.Obj? then Unsanitized(members.value)
      else if IsSecretName(members.key) && members.value != REDACTED then true
      else Unsanitized(members.value))
     || UnsanitizedMembers(members.rest))
  }

  // ----- What the redactor does, without its own recursion -----

  /** Every `id` directly inside a token object is redacted. */
  predicate TokenIdsHidden(v: Json, tokenObject: bool) {
    match v
    case Obj(members) => MemberIdsHidden(members, tokenObject)
    case Arr(items) => ItemIdsHidden(items)
    case _ => true
  }

  predicate ItemIdsHidden(items: Items) {
    items.Item? ==> TokenIdsHidden(items.head, false) && ItemIdsHidden(items.tail)
  }

  predicate MemberIdsHidden(members: Members, tokenObject: bool) {
    members.Member? ==>
      && (tokenObject && members.key == "id" ==> members.value == REDACTED)
      && TokenIdsHidden(members.value, members.key == "token" && members.value.Obj?)
      && MemberIdsHidden(members.rest, tokenObject)
  }

  /** `r` is `v` with nothing changed but some values under secret names, or token ids, hidden. */
  predicate HidesOnlySecrets(v: Json, r: Json, tokenObject: bool) {
    match v
    case Obj(members) => r.Obj? && HidesOnlySecretMembers(members, r.members, tokenObject)
    case Arr(items) => r.Arr? && HidesOnlySecretItems(items, r.items)
    case _ => r == v
  }

  predicate HidesOnlySecretItems(items: Items, r: Items) {
    match items
    case NoItems => r.NoItems?
    case Item(head, tail) => r.Item? && HidesOnlySecrets(head, r.head, false) && HidesOnlySecretItems(tail, r.tail)
  }

  predicate HidesOnlySecretMembers(members: Members, r: Members, tokenObject: bool) {
    match members
    case NoMembers => r.NoMembers?
    case Member(key, value, rest) =>
      && r.Member? && r.key == key
      && (|| HidesOnlySecrets(value, r.value, key == "token" && value.Obj?)
          || (&& r.value == REDACTED
              && !(key == "token" && value.Obj?)
              && (IsSecretName(key) || (tokenObject && key == "id"))))
      && HidesOnlySecretMembers(rest, r.rest, tokenObject)
  }

  lemma NotSecret(key: string)
    requires key == "id"
    ensures !IsSecretName(key)
  {
  }

  lemma TokenIsSecret(key: string)
    requires key == "token"
    ensures IsSecretName(key)
  {
    assert SECRET_WORDS[0] == "token";
    assert "token" in SECRET_WORDS;
    assert key[0..] == key;
    assert StartsWithFolded(key[0..], "token");
  }

  /**
   The redacted tree is the one and only tree that hides nothing but secrets, that the
   checker accepts, and whose token objects show no id.
   */
  lemma {:induction false} RedactIsTheOnlyOne(v: Json, r: Json, tokenObject: bool)
    ensures r == Redact(v, tokenObject) <==>
            HidesOnlySecrets(v, r, tokenObject) && !Unsanitized(r) && TokenIdsHidden(r, tokenObject)
  {
    match v
    case Obj(members) =>
      if r.Obj? {
        OnlyMembers(members, r.members, tokenObject);
      }
    case Arr(items) =>
      if r.Arr? {
        OnlyItems(items, r.items);
      }
    case _ =>
  }

  lemma {:induction false} OnlyItems(items: Items, r: Items)
    ensures r == RedactItems(items) <==>
            HidesOnlySecretItems(items, r) && !UnsanitizedItems(r) && ItemIdsHidden(r)
  {
    if items.Item? && r.Item? {
      RedactIsTheOnlyOne(items.head, r.head, false);
      OnlyItems(items.tail, r.tail);
    }
  }

  lemma {:induction false} OnlyMembers(members: Members, r: Members, tokenObject: bool)
    ensures r == RedactMembers(members, tokenObject) <==>
            HidesOnlySecretMembers(members, r, tokenObject) && !UnsanitizedMembers(r) && MemberIdsHidden(r, tokenObject)
  {
    if members.Member? && r.Member? {
      var key, v, w := members.key, members.value, r.value;
      OnlyMembers(members.rest, r.rest, tokenObject);
      if key == "id" {
        NotSecret(key);
      }
      if key == "token" {
        TokenIsSecret(key);
      }
      hide IsSecretName;
      if key == "token" && v.Obj? {
        RedactIsTheOnlyOne(v, w, true);
        assert HidesOnlySecrets(v, w, true) ==> w.Obj?;
      } else if IsSecretName(key) || (tokenObject && key == "id") {
        assert HidesOnlySecrets(v, w, false) && !v.Obj? ==> !w.Obj?;
        assert !Unsanitized(REDACTED) && TokenIdsHidden(REDACTED, false);
      } else {
        RedactIsTheOnlyOne(v, w, false);
      }
    }
  }

  lemma {:induction false} HidesNothing(v: Json, tokenObject: bool)
    ensures HidesOnlySecrets(v, v, tokenObject)
  {
    match v
    case Obj(members) => HidesNothingInMembers(members, tokenObject);
    case Arr(items) => HidesNothingInItems(items);
    case _ =>
  }

  lemma {:induction false} HidesNothingInItems(items: Items)
    ensures HidesOnlySecretItems(items, items)
  {
    if items.Item? {
      HidesNothing(items.head, false);
      HidesNothingInItems(items.tail);
    }
  }

  lemma {:induction false} HidesNothingInMembers(members: Members, tokenObject: bool)
    ensures HidesOnlySecretMembers(members, members, tokenObject)
  {
    if members.Member? {
      HidesNothing(members.value, members.key == "token" && members.value.Obj?);
      HidesNothingInMembers(members.rest, tokenObject);
    }
  }

  /**
   A tree is left as it is exactly when the checker accepts it and its token objects show no
   id: the checker alone does not look at token ids.
   */
  lemma FixedIffSanitized(v: Json, tokenObject: bool)
    ensures Redact(v, tokenObject) == v <==> !Unsanitized(v) && TokenIdsHidden(v, tokenObject)
  {
    HidesNothing(v, tokenObject);
    RedactIsTheOnlyOne(v, v, tokenObject);
  }

  /** The redactor meets its checker on every tree. */
  lemma RedactedIsSanitized(v: Json, tokenObject: bool)
    ensures !Unsanitized(Redact(v, tokenObject))
  {
    RedactIsTheOnlyOne(v, Redact(v, tokenObject), tokenObject);
  }

  /** Redacting twice is redacting once, in both modes. */
  lemma RedactIsIdempotent(v: Json, tokenObject: bool)
    ensures Redact(Redact(v, tokenObject), tokenObject) == Redact(v, tokenObject)
  {
    RedactIsTheOnlyOne(v, Redact(v, tokenObject), tokenObject);
    FixedIffSanitized(Redact(v, tokenObject), tokenObject);
  }

  /** The checker accepts any token object whose only content is an id in the clear, which the redactor would hide. */
  lemma CheckerMissesTokenIds(id: string)
    requires Str(id) != REDACTED
    ensures var v := Obj(Member("token", Obj(Member("id", Str(id), NoMembers)), NoMembers));
            !Unsanitized(v) && Redact(v, false) != v
  {
    NotSecret("id");
    var inner := Member("id", Str(id), NoMembers);
    var outer := Member("token", Obj(inner), NoMembers);
    assert !MemberIdsHidden(inner, true);
    assert !TokenIdsHidden(Obj(inner), true);
    assert !MemberIdsHidden(outer, false);
    FixedIffSanitized(Obj(outer), false);
    assert !UnsanitizedMembers(inner);
    assert !UnsanitizedMembers(outer);
  }

  // ----- Which names are secret -----

  /** The letter in either case, or a character that Python equates with it when case is ignored. */
  predicate SameLetter(c: char, letter: char) {
    || c == letter
    || ('a' <= letter <= 'z' && 'A' <= c <= 'Z' && c as int + 32 == letter as int)
    || (letter == 'i' && (c == '\U{130}' || c == '\U{131}'))
    || (letter == 's' && c == '\U{17F}')
    || (letter == 'k' && c == '\U{212A}')
  }

  predicate SpelledAt(key: string, i: int, word: string) {
    0 <= i && i + |word| <= |key| && forall j :: 0 <= j < |word| ==> SameLetter(key[i + j], word[j])
  }

  predicate IsLowerWord(word: string) {
    forall j :: 0 <= j < |word| ==> 'a' <= word[j] <= 'z' || word[j] == '_' || word[j] == '-'
  }

  lemma FoldedIsSame(c: char, letter: char)
    requires 'a' <= letter <= 'z' || letter == '_' || letter == '-'
    ensures Fold(c) == letter <==> SameLetter(c, letter)
  {
  }

  lemma ContainsIsSpelled(key: string, word: string)
    requires IsLowerWord(word)
    ensures ContainsFolded(key, word) <==> exists i :: SpelledAt(key, i, word)
  {
    hide Fold, SameLetter;
    forall i: int | 0 <= i <= |key|
      ensures StartsWithFolded(key[i..], word) <==> SpelledAt(key, i, word)
    {
      forall j | 0 <= j < |word| && i + j < |key|
        ensures key[i..][j] == key[i + j] && (Fold(key[i + j]) == word[j] <==> SameLetter(key[i + j], word[j]))
      {
        FoldedIsSame(key[i + j], word[j]);
      }
    }
    if i :| SpelledAt(key, i, word) {
      assert StartsWithFolded(key[i..], word);
    }
  }

  /** A name is secret exactly when one of these words stands somewhere in it, in any case. */
  ghost predicate MentionsSecret(key: string) {
    exists i ::
      || SpelledAt(key, i, "token") || SpelledAt(key, i, "password") || SpelledAt(key, i, "secret")
      || SpelledAt(key, i, "privatekey") || SpelledAt(key, i, "private_key") || SpelledAt(key, i, "private-key")
      || SpelledAt(key, i, "authorization") || SpelledAt(key, i, "cookie")
  }

  lemma SecretWordsAre(w: string)
    ensures w in SECRET_WORDS <==>
            || w == "token" || w == "password" || w == "secret" || w == "privatekey" || w == "private_key"
            || w == "private-key" || w == "authorization" || w == "cookie"
  {
    assert SECRET_WORDS[0] == "token" && SECRET_WORDS[1] == "password" && SECRET_WORDS[2] == "secret"
           && SECRET_WORDS[3] == "privatekey" && SECRET_WORDS[4] == "private_key" && SECRET_WORDS[5] == "private-key"
           && SECRET_WORDS[6] == "authorization" && SECRET_WORDS[7] == "cookie";
  }

  lemma SecretNamesExactly(key: string)
    ensures IsSecretName(key) <==> MentionsSecret(key)
  {
    hide ContainsFolded, SpelledAt, SECRET_WORDS;
    ContainsIsSpelled(key, "token");
    ContainsIsSpelled(key, "password");
    ContainsIsSpelled(key, "secret");
    ContainsIsSpelled(key, "privatekey");
    ContainsIsSpelled(key, "private_key");
    ContainsIsSpelled(key, "private-key");
    ContainsIsSpelled(key, "authorization");
    ContainsIsSpelled(key, "cookie");
    forall w
      ensures w in SECRET_WORDS <==>
              || w == "token" || w == "password" || w == "secret" || w == "privatekey" || w == "private_key"
              || w == "private-key" || w == "authorization" || w == "cookie"
    {
      SecretWordsAre(w);
    }
  }

  /** What becomes of a member: hidden under a secret name or as a token's id, and gone through otherwise. */
  lemma MemberExactly(key: string, value: Json, rest: Members, tokenObject: bool)
    ensures var r := RedactMembers(Member(key, value, rest), tokenObject);
            r.Member? && r.key == key && r.rest == RedactMembers(rest, tokenObject)
            && r.value == if key == "token" && value.Obj? then Redact(value, true)
                          else if MentionsSecret(key) || (tokenObject && key == "id") then Str("<redacted>")
                          else Redact(value, false)
  {
    hide IsSecretName, MentionsSecret, Redact;
    SecretNamesExactly(key);
    if key == "id" {
      NotSecret(key);
    }
  }
}
