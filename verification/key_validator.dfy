/** The multi-tenant credential store: site keys and secret keys loaded once
    from two comma-separated configuration lists, paired by position, and
    the read-only membership queries over the loaded pairs. Queries take the
    validator by value, so none of them can change the loaded pairs. */
module KeyValidator {
  import opened Wrappers
  import Text
  import opened Http

  datatype KeyPair = KeyPair(siteKey: string, secretKey: string)

  /** A constructed validator: the pairs it loaded, in list order. */
  datatype Validator = Validator(pairs: seq<KeyPair>)

  /** The message of the error construction throws on unequal lists. */
  const LengthMismatch: string := "Number of SITE_KEYS must match number of SECRET_KEYS"

  /** `parts.map(k => k.trim())`. */
  function TrimAll(parts: seq<string>): (keys: seq<string>)
    ensures |keys| == |parts|
    ensures forall i :: 0 <= i < |keys| ==> keys[i] == Text.Trim(parts[i])
  {
    seq(|parts|, i requires 0 <= i < |parts| => Text.Trim(parts[i]))
  }

  /** `list.split(',').map(k => k.trim())`. */
  function KeyList(list: string): (keys: seq<string>)
    ensures |keys| == |Text.Split(list, ',')| == Text.Occurrences(list, ',') + 1
    ensures forall i :: 0 <= i < |keys| ==> ',' !in Text.Split(list, ',')[i] && Text.Tight(keys[i])
    ensures forall i :: 0 <= i < |keys| ==> keys[i] == Text.Trim(Text.Split(list, ',')[i])
  {
    Text.SplitCount(list, ',');
    TrimAll(Text.Split(list, ','))
  }

  /** Pair the two lists position by position. */
  function Zip(sites: seq<string>, secrets: seq<string>): (pairs: seq<KeyPair>)
    requires |sites| == |secrets|
    ensures |pairs| == |sites|
    ensures forall i :: 0 <= i < |pairs| ==> pairs[i] == KeyPair(sites[i], secrets[i])
  {
    seq(|sites|, i requires 0 <= i < |sites| => KeyPair(sites[i], secrets[i]))
  }

  /** Construction of a validator from the site-key and secret-key settings.
      A missing or empty setting loads nothing; lists whose entry counts
      differ make construction throw; otherwise entry `i` of each list,
      trimmed, forms pair `i`. */
  function Load(siteKeys: Option<string>, secretKeys: Option<string>): (r: Result<Validator, string>)
    ensures !TruthyText(siteKeys) || !TruthyText(secretKeys) ==> r == Success(Validator([]))
    ensures TruthyText(siteKeys) && TruthyText(secretKeys) ==>
      (r.Failure? <==> |Text.Split(siteKeys.value, ',')| != |Text.Split(secretKeys.value, ',')|)
    ensures r.Failure? ==> r.error == LengthMismatch
    ensures r.Success? && TruthyText(siteKeys) && TruthyText(secretKeys) ==>
      var sites := Text.Split(siteKeys.value, ',');
      var secrets := Text.Split(secretKeys.value, ',');
      && |r.value.pairs| == |sites|
      && forall i :: 0 <= i < |sites| ==>
           r.value.pairs[i] == KeyPair(Text.Trim(sites[i]), Text.Trim(secrets[i]))
  {
    if !TruthyText(siteKeys) || !TruthyText(secretKeys) then Success(Validator([]))
    else
      var sites := KeyList(siteKeys.value);
      var secrets := KeyList(secretKeys.value);
      if |sites| != |secrets| then Failure(LengthMismatch)
      else Success(Validator(Zip(sites, secrets)))
  }

  /** `pairs.some(p)`: whether some pair satisfies `p`. */
  function Any(pairs: seq<KeyPair>, p: KeyPair -> bool): (r: bool)
    ensures r <==> exists i :: 0 <= i < |pairs| && p(pairs[i])
  {
    if |pairs| == 0 then false
    else p(pairs[0]) || (assert forall i :: 0 <= i < |pairs| - 1 ==> pairs[1..][i] == pairs[i + 1];
                         Any(pairs[1..], p))
  }

  /** Whether `key` is the site key of some loaded pair; an absent or empty
      key never is. */
  function ValidateSiteKey(v: Validator, key: Option<string>): (r: bool)
    ensures r <==> TruthyText(key) && exists i :: 0 <= i < |v.pairs| && v.pairs[i].siteKey == key.value
  {
    if !TruthyText(key) then false else Any(v.pairs, (p: KeyPair) => p.siteKey == key.value)
  }

  /** Whether `key` is the secret key of some loaded pair; an absent or
      empty key never is. */
  function ValidateSecretKey(v: Validator, key: Option<string>): (r: bool)
    ensures r <==> TruthyText(key) && exists i :: 0 <= i < |v.pairs| && v.pairs[i].secretKey == key.value
  {
    if !TruthyText(key) then false else Any(v.pairs, (p: KeyPair) => p.secretKey == key.value)
  }

  /** Whether the two keys were loaded as the same pair: a site key and a
      secret key taken from different pairs do not match. */
  function ValidateKeyPair(v: Validator, siteKey: Option<string>, secretKey: Option<string>): (r: bool)
    ensures r <==>
      && TruthyText(siteKey) && TruthyText(secretKey)
      && exists i :: 0 <= i < |v.pairs| && v.pairs[i] == KeyPair(siteKey.value, secretKey.value)
  {
    if !TruthyText(siteKey) || !TruthyText(secretKey) then false
    else Any(v.pairs, (p: KeyPair) => p.siteKey == siteKey.value && p.secretKey == secretKey.value)
  }

  /** Whether any pair was loaded, i.e. whether key checking is active. */
  function HasKeys(v: Validator): (b: bool)
    ensures b <==> v.pairs != []
    ensures !b ==> forall key :: !ValidateSiteKey(v, key)
    ensures !b ==> forall key :: !ValidateSecretKey(v, key)
    ensures !b ==> forall s, t :: !ValidateKeyPair(v, s, t)
  {
    |v.pairs| > 0
  }

  /** A matching pair implies that each key is known on its own. */
  lemma KeyPairImpliesEach(v: Validator, siteKey: Option<string>, secretKey: Option<string>)
    requires ValidateKeyPair(v, siteKey, secretKey)
    ensures ValidateSiteKey(v, siteKey) && ValidateSecretKey(v, secretKey)
  {
  }

  /** An absent or empty argument is rejected by every query, even when a
      loaded entry trimmed down to the empty string. */
  lemma FalsyKeyRejected(v: Validator, key: Option<string>, other: Option<string>)
    requires !TruthyText(key)
    ensures !ValidateSiteKey(v, key) && !ValidateSecretKey(v, key)
    ensures !ValidateKeyPair(v, key, other) && !ValidateKeyPair(v, other, key)
  {
  }

  /** Without both settings nothing is loaded and key checking is inert. */
  lemma MissingSettingLoadsNothing(siteKeys: Option<string>, secretKeys: Option<string>)
    requires !TruthyText(siteKeys) || !TruthyText(secretKeys)
    ensures Load(siteKeys, secretKeys).Success?
    ensures !HasKeys(Load(siteKeys, secretKeys).value)
  {
  }

  /** Whenever both settings are present and construction succeeds, keys
      are loaded: splitting never yields an empty list. There is one pair
      per comma plus one. */
  lemma LoadedHasKeys(siteKeys: Option<string>, secretKeys: Option<string>)
    requires TruthyText(siteKeys) && TruthyText(secretKeys)
    requires Load(siteKeys, secretKeys).Success?
    ensures HasKeys(Load(siteKeys, secretKeys).value)
    ensures |Load(siteKeys, secretKeys).value.pairs| == Text.Occurrences(siteKeys.value, ',') + 1
  {
    Text.SplitCount(siteKeys.value, ',');
  }

  /** A key that contains no comma and has no surrounding white space. */
  predicate CleanKey(k: string)
  {
    ',' !in k && Text.Tight(k)
  }

  /** Trimming keys without surrounding white space changes none of them. */
  lemma TrimAllOfTight(keys: seq<string>)
    requires forall i :: 0 <= i < |keys| ==> Text.Tight(keys[i])
    ensures TrimAll(keys) == keys
  {
    forall i | 0 <= i < |keys|
      ensures TrimAll(keys)[i] == keys[i]
    {
      Text.TrimOfTrimmed(keys[i]);
    }
  }

  /** Splitting and trimming a comma-joined list of clean keys gives back
      the keys. */
  lemma KeyListOfJoined(keys: seq<string>)
    requires |keys| >= 1
    requires forall i :: 0 <= i < |keys| ==> CleanKey(keys[i])
    ensures KeyList(Text.Join(keys, ',')) == keys
  {
    Text.SplitJoin(keys, ',');
    TrimAllOfTight(keys);
  }

  /** Writing clean keys into the two settings, comma-separated, and loading
      them gives back exactly those keys, paired by position. */
  lemma LoadJoinedRoundTrip(sites: seq<string>, secrets: seq<string>)
    requires |sites| == |secrets| >= 1
    requires forall i :: 0 <= i < |sites| ==> CleanKey(sites[i]) && CleanKey(secrets[i])
    requires Text.Join(sites, ',') != "" && Text.Join(secrets, ',') != ""
    ensures Load(Some(Text.Join(sites, ',')), Some(Text.Join(secrets, ','))) == Success(Validator(Zip(sites, secrets)))
  {
    KeyListOfJoined(sites);
    KeyListOfJoined(secrets);
  }

  /** Site keys "a,b" with secret keys "x,y" load as the pairs (a, x) and
      (b, y). */
  lemma ExampleLoads(siteKeys: string, secretKeys: string)
    requires siteKeys == "a,b" && secretKeys == "x,y"
    ensures Load(Some(siteKeys), Some(secretKeys)) == Success(Validator([KeyPair("a", "x"), KeyPair("b", "y")]))
  {
    var sites, secrets := ["a", "b"], ["x", "y"];
    var pairs := Zip(sites, secrets);
    assert pairs == [KeyPair("a", "x"), KeyPair("b", "y")] by {
      assert pairs[0] == KeyPair("a", "x") && pairs[1] == KeyPair("b", "y");
    }
    assert CleanKey("a") && CleanKey("b") && CleanKey("x") && CleanKey("y");
    assert Text.Join(sites, ',') == siteKeys by {
      assert Text.Join(sites[1..], ',') == "b";
    }
    assert Text.Join(secrets, ',') == secretKeys by {
      assert Text.Join(secrets[1..], ',') == "y";
    }
    LoadJoinedRoundTrip(sites, secrets);
  }

  /** With those keys, each position-matched pair validates and the cross
      pairs (a, y) and (b, x) do not. */
  lemma CrossPairRejected(siteKeys: string, secretKeys: string)
    requires siteKeys == "a,b" && secretKeys == "x,y"
    ensures Load(Some(siteKeys), Some(secretKeys)).Success?
    ensures var v := Load(Some(siteKeys), Some(secretKeys)).value;
      && ValidateKeyPair(v, Some("a"), Some("x"))
      && ValidateKeyPair(v, Some("b"), Some("y"))
      && !ValidateKeyPair(v, Some("a"), Some("y"))
      && !ValidateKeyPair(v, Some("b"), Some("x"))
  {
    ExampleLoads(siteKeys, secretKeys);
    PairQueries(Validator([KeyPair("a", "x"), KeyPair("b", "y")]));
  }

  lemma PairQueries(v: Validator)
    requires v.pairs == [KeyPair("a", "x"), KeyPair("b", "y")]
    ensures ValidateKeyPair(v, Some("a"), Some("x"))
    ensures ValidateKeyPair(v, Some("b"), Some("y"))
    ensures !ValidateKeyPair(v, Some("a"), Some("y"))
    ensures !ValidateKeyPair(v, Some("b"), Some("x"))
  {
    assert v.pairs[0] == KeyPair("a", "x");
    assert v.pairs[1] == KeyPair("b", "y");
  }

  /** Lists with different entry counts make construction fail. */
  lemma MismatchFails()
    ensures Load(Some("a,b"), Some("x")) == Failure(LengthMismatch)
  {
    Text.SplitCount("a,b", ',');
    Text.SplitCount("x", ',');
  }
}
