/**
 * Model of password_app/models.py: the PasswordVault record, the bounds its
 * field declarations impose, and `__str__`. The serializer generated from the
 * model checks those bounds the way Django REST framework's CharField does:
 * it strips surrounding whitespace, refuses a blank result, a result longer
 * than max_length and a NUL character.
 */
module Models {
  import opened Common
  import opened Text

  /** One row; `createdAt` is the `auto_now_add` timestamp, set when the row is created. */
  datatype PasswordVault = PasswordVault(
    user: string,
    websiteName: string,
    websiteUrl: string,
    password: string,
    createdAt: int)

  const UserMaxLength: nat := 40
  const WebsiteNameMaxLength: nat := 30
  /** URLField's default max_length. */
  const WebsiteUrlMaxLength: nat := 200
  const PasswordMaxLength: nat := 100

  /** The four writable fields, under their request keys. */
  const VaultFields: set<string> := {"user", "website_name", "website_url", "password"}

  function MaxLength(field: string): nat {
    if field == "user" then UserMaxLength
    else if field == "website_name" then WebsiteNameMaxLength
    else if field == "website_url" then WebsiteUrlMaxLength
    else PasswordMaxLength
  }

  /**
   * A cleaned value DRF accepts for a field declared `blank=False` with
   * `max_length`: non-blank, within the bound, no NUL, already stripped.
   * `urlOk` is URLValidator's syntax check, kept abstract.
   */
  predicate Acceptable(field: string, v: string, urlOk: string -> bool) {
    v != "" && |v| <= MaxLength(field) && '\0' !in v && Stripped(v)
    && (field == "website_url" ==> urlOk(v))
  }

  /** The four fields are present and each is acceptable once stripped. */
  predicate FieldsAcceptable(data: map<string, string>, urlOk: string -> bool) {
    "user" in data && "website_name" in data && "website_url" in data && "password" in data
    && Acceptable("user", Strip(data["user"]), urlOk)
    && Acceptable("website_name", Strip(data["website_name"]), urlOk)
    && Acceptable("website_url", Strip(data["website_url"]), urlOk)
    && Acceptable("password", Strip(data["password"]), urlOk)
  }

  /**
   * `PasswordSerializer(data=data).is_valid()` and its `validated_data`: every
   * field present and acceptable once stripped; unknown keys are dropped.
   */
  function ValidateVaultData(data: map<string, string>, urlOk: string -> bool): Option<map<string, string>> {
    if FieldsAcceptable(data, urlOk) then
      FieldsPresent(data);
      Some(StripAll(data, VaultFields))
    else None
  }

  /** Holding the four keys is holding VaultFields. */
  lemma FieldsPresent(data: map<string, string>)
    requires "user" in data && "website_name" in data && "website_url" in data && "password" in data
    ensures VaultFields <= data.Keys
  {
  }

  /** The stripped values of the given keys. */
  function StripAll(data: map<string, string>, keys: set<string>): map<string, string>
    requires keys <= data.Keys
  {
    map f | f in keys :: Strip(data[f])
  }

  /** A validated value satisfies its field's declared bounds. */
  lemma ValidatedWithinBounds(data: map<string, string>, urlOk: string -> bool)
    requires ValidateVaultData(data, urlOk).Some?
    ensures var v := ValidateVaultData(data, urlOk).value;
            0 < |v["user"]| <= 40 && 0 < |v["website_name"]| <= 30
            && 0 < |v["website_url"]| <= 200 && 0 < |v["password"]| <= 100
  {
    var v := ValidateVaultData(data, urlOk).value;
    assert Acceptable("user", v["user"], urlOk);
    assert Acceptable("website_name", v["website_name"], urlOk);
    assert Acceptable("website_url", v["website_url"], urlOk);
    assert Acceptable("password", v["password"], urlOk);
  }

  /**
   * Validation is a fixed point on its own output: the validated data has
   * exactly the four fields, and validating it again gives it back unchanged.
   */
  lemma ValidatedIsFixed(data: map<string, string>, urlOk: string -> bool)
    requires ValidateVaultData(data, urlOk).Some?
    ensures var v := ValidateVaultData(data, urlOk).value;
            v.Keys == VaultFields && ValidateVaultData(v, urlOk) == Some(v)
  {
    FieldsPresent(data);
    var v := StripAll(data, VaultFields);
    StripAllFixed(data, VaultFields);
    StrippedStillAcceptable(data, v, urlOk);
    FieldsPresent(v);
  }

  lemma StripAllKeys(data: map<string, string>, keys: set<string>)
    requires keys <= data.Keys
    ensures StripAll(data, keys).Keys == keys
  {
  }

  /** Stripping twice strips once. */
  lemma StripAllFixed(data: map<string, string>, keys: set<string>)
    requires keys <= data.Keys
    ensures StripAll(data, keys).Keys == keys
    ensures StripAll(StripAll(data, keys), keys) == StripAll(data, keys)
  {
    StripAllKeys(data, keys);
    var v := StripAll(data, keys);
    StripAllKeys(v, keys);
    var w := StripAll(v, keys);
    forall f | f in keys ensures w[f] == v[f] {
      StripAllFieldFixed(data, keys, f);
    }
  }

  lemma StripAllFieldFixed(data: map<string, string>, keys: set<string>, f: string)
    requires keys <= data.Keys && f in keys
    ensures StripAll(data, keys).Keys == keys
    ensures StripAll(StripAll(data, keys), keys)[f] == StripAll(data, keys)[f]
  {
    StripAllKeys(data, keys);
    var v := StripAll(data, keys);
    assert v[f] == Strip(data[f]);
    StripIdempotent(data[f]);
  }

  /** Acceptable fields stay acceptable once stripped. */
  lemma StrippedStillAcceptable(data: map<string, string>, v: map<string, string>, urlOk: string -> bool)
    requires FieldsAcceptable(data, urlOk) && VaultFields <= data.Keys && v == StripAll(data, VaultFields)
    ensures FieldsAcceptable(v, urlOk)
  {
    assert "user" in VaultFields && "website_name" in VaultFields;
    assert "website_url" in VaultFields && "password" in VaultFields;
    StripFixed(v["user"]);
    StripFixed(v["website_name"]);
    StripFixed(v["website_url"]);
    StripFixed(v["password"]);
  }

  /** `serializer.save()`: the row built from validated data, stamped with the creation time. */
  function Saved(v: map<string, string>, now: int): (r: PasswordVault)
    requires VaultFields <= v.Keys
  {
    PasswordVault(v["user"], v["website_name"], v["website_url"], v["password"], now)
  }

  /** `__str__`. */
  function Describe(r: PasswordVault): (s: string)
    ensures |s| == |r.user| + 13 + |r.websiteName|
    ensures s[..|r.user|] == r.user && s[|s| - |r.websiteName|..] == r.websiteName
  {
    r.user + "'s vault for " + r.websiteName
  }

  /** Two rows of one user are described alike exactly when they are for the same website name. */
  lemma DescribeDistinguishesSites(r1: PasswordVault, r2: PasswordVault)
    requires r1.user == r2.user
    ensures Describe(r1) == Describe(r2) <==> r1.websiteName == r2.websiteName
  {
    if Describe(r1) == Describe(r2) {
      var s := Describe(r1);
      assert r1.websiteName == s[|s| - |r1.websiteName|..];
      assert r2.websiteName == s[|s| - |r2.websiteName|..];
    }
  }
}
