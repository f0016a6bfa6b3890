/**
 * Model of `RegisterSerializer.save` (user_app/serializers.py:13-34): the
 * confirmation check, the email check, then the insert of one account into
 * the user table.
 */
module Accounts {
  import opened Common

  /**
   * A row of Django's user table, reduced to the fields registration writes.
   * `password` holds what `set_password` leaves there, never the plaintext;
   * there is no field for the confirmation.
   */
  datatype Account = Account(username: string, email: string, firstName: string, lastName: string, password: string)

  /** `make_password` in `set_password`: salting and hashing, kept abstract. */
  type Hasher = string -> string

  datatype RegisterError =
    | MissingKey(key: string)   // a KeyError on `validated_data`: HTTP 500
    | PasswordMismatch          // serializers.py:16-17
    | EmailTaken                // serializers.py:19-20
    | SaveFailed                // `account.save()` raised, serializers.py:30-33

  /** A `ValidationError` raised from `save` comes back as a 400; a KeyError as a 500. */
  function Status(f: RegisterError): int {
    if f.MissingKey? then 500 else 400
  }

  predicate EmailRegistered(accounts: seq<Account>, email: string) {
    exists i :: 0 <= i < |accounts| && accounts[i].email == email
  }

  predicate UsernameTaken(accounts: seq<Account>, username: string) {
    exists i :: 0 <= i < |accounts| && accounts[i].username == username
  }

  predicate UniqueUsernames(accounts: seq<Account>) {
    forall i, j :: 0 <= i < j < |accounts| ==> accounts[i].username != accounts[j].username
  }

  predicate UniqueEmails(accounts: seq<Account>) {
    forall i, j :: 0 <= i < j < |accounts| ==> accounts[i].email != accounts[j].email
  }

  /** The keys `save` reads after the email check (serializers.py:23-26), in the order it reads them. */
  const RowKeys: seq<string> := ["email", "username", "first_name", "last_name"]

  /** The first of `keys` missing from `data`, as the KeyError Python raises. */
  function FirstMissing(data: map<string, string>, keys: seq<string>): (m: Option<string>)
    ensures m.None? <==> forall k :: k in keys ==> k in data
    ensures m.Some? ==> m.value in keys && m.value !in data
  {
    if keys == [] then None
    else if keys[0] !in data then Some(keys[0])
    else FirstMissing(data, keys[1..])
  }

  /** The account `save` builds and hashes the password into (serializers.py:22-29). */
  function NewAccount(validated: map<string, string>, hash: Hasher): Account
    requires "password" in validated && forall k :: k in RowKeys ==> k in validated
  {
    Account(validated["username"], validated["email"], validated["first_name"], validated["last_name"],
            hash(validated["password"]))
  }

  /**
   * The reply of `save` and the user table after it. `account.save()` fails
   * exactly when the username is already present: it is the one unique
   * column that registration writes.
   */
  function RegisterOutcome(accounts: seq<Account>, validated: map<string, string>, hash: Hasher)
    : (out: (Result<Account, RegisterError>, seq<Account>))
    ensures out.0.Err? ==> out.1 == accounts
    ensures out.0.Ok? ==> out.1 == accounts + [out.0.value]
  {
    if "password" !in validated then (Err(MissingKey("password")), accounts)
    else if "confirm_password" !in validated then (Err(MissingKey("confirm_password")), accounts)
    else if validated["password"] != validated["confirm_password"] then (Err(PasswordMismatch), accounts)
    else if "email" !in validated then (Err(MissingKey("email")), accounts)
    else if EmailRegistered(accounts, validated["email"]) then (Err(EmailTaken), accounts)
    else match FirstMissing(validated, RowKeys)
      case Some(k) => (Err(MissingKey(k)), accounts)
      case None =>
        if UsernameTaken(accounts, validated["username"]) then (Err(SaveFailed), accounts)
        else (Ok(NewAccount(validated, hash)), accounts + [NewAccount(validated, hash)])
  }

  /** Every key `save` reads is present in the validated data. */
  predicate Complete(validated: map<string, string>) {
    "password" in validated && "confirm_password" in validated && forall k :: k in RowKeys ==> k in validated
  }

  /**
   * The confirmation is compared before the table is consulted: a mismatch is
   * reported whatever the table holds, even when the email is already taken.
   */
  lemma MismatchReportedFirst(accounts: seq<Account>, validated: map<string, string>, hash: Hasher)
    requires "password" in validated && "confirm_password" in validated
    requires validated["password"] != validated["confirm_password"]
    ensures RegisterOutcome(accounts, validated, hash) == (Err(PasswordMismatch), accounts)
  {
  }

  /** A matching confirmation with a registered email is refused, and nothing is added. */
  lemma TakenEmailRefused(accounts: seq<Account>, validated: map<string, string>, hash: Hasher)
    requires "password" in validated && "confirm_password" in validated && "email" in validated
    requires validated["password"] == validated["confirm_password"]
    requires EmailRegistered(accounts, validated["email"])
    ensures RegisterOutcome(accounts, validated, hash) == (Err(EmailTaken), accounts)
  {
  }

  /**
   * For a complete request, registration succeeds exactly when the two
   * passwords agree, the email is new and the username is free; it then adds
   * exactly one account, built from the four row fields and the hashed password.
   */
  lemma RegisterSuccess(accounts: seq<Account>, validated: map<string, string>, hash: Hasher)
    requires Complete(validated)
    ensures RegisterOutcome(accounts, validated, hash).0.Ok? <==>
            validated["password"] == validated["confirm_password"] &&
            !EmailRegistered(accounts, validated["email"]) &&
            !UsernameTaken(accounts, validated["username"])
    ensures RegisterOutcome(accounts, validated, hash).0.Ok? ==>
            RegisterOutcome(accounts, validated, hash).1 == accounts + [RegisterOutcome(accounts, validated, hash).0.value]
    ensures RegisterOutcome(accounts, validated, hash).0.Ok? ==>
            var a := RegisterOutcome(accounts, validated, hash).0.value;
            a.username == validated["username"] && a.email == validated["email"] &&
            a.firstName == validated["first_name"] && a.lastName == validated["last_name"] &&
            a.password == hash(validated["password"])
  {
  }

  /** A success needs every key `save` reads; any one missing is a KeyError and a 500. */
  lemma SuccessNeedsEveryKey(accounts: seq<Account>, validated: map<string, string>, hash: Hasher)
    ensures !Complete(validated) ==> RegisterOutcome(accounts, validated, hash).0.Err?
    ensures RegisterOutcome(accounts, validated, hash).0.Err? && RegisterOutcome(accounts, validated, hash).0.error.MissingKey? ==>
            RegisterOutcome(accounts, validated, hash).0.error.key !in validated
  {
  }

  /**
   * The plaintext and the confirmation are never stored: the only trace of
   * either in the new row is `hash` of the password, so two requests that
   * differ only in the password they confirm store rows differing only there.
   */
  lemma ConfirmationNotStored(accounts: seq<Account>, v: map<string, string>, p: string, q: string, hash: Hasher)
    requires forall k :: k in RowKeys ==> k in v
    ensures var a := RegisterOutcome(accounts, v["password" := p]["confirm_password" := p], hash);
            var b := RegisterOutcome(accounts, v["password" := q]["confirm_password" := q], hash);
            a.0.Ok? <==> b.0.Ok?
    ensures var a := RegisterOutcome(accounts, v["password" := p]["confirm_password" := p], hash);
            var b := RegisterOutcome(accounts, v["password" := q]["confirm_password" := q], hash);
            a.0.Ok? ==> a.0.value == b.0.value.(password := hash(p))
  {
  }

  /**
   * Once every key is present, no KeyError can occur: each failure is a
   * `ValidationError` raised from `save`, and the view answers it with a 400.
   */
  lemma CompleteFailuresAre400(accounts: seq<Account>, validated: map<string, string>, hash: Hasher)
    requires Complete(validated)
    ensures RegisterOutcome(accounts, validated, hash).0.Err? ==>
            Status(RegisterOutcome(accounts, validated, hash).0.error) == 400
  {
  }

  /** Registration keeps usernames and emails unique in the table. */
  lemma RegisterPreservesUniqueness(accounts: seq<Account>, validated: map<string, string>, hash: Hasher)
    requires UniqueUsernames(accounts) && UniqueEmails(accounts)
    ensures UniqueUsernames(RegisterOutcome(accounts, validated, hash).1)
    ensures UniqueEmails(RegisterOutcome(accounts, validated, hash).1)
  {
  }

  /** The user table, with the registrations `save` commits. */
  class UserTable {
    var accounts: seq<Account>

    ghost predicate Valid()
      reads this
    {
      UniqueUsernames(accounts) && UniqueEmails(accounts)
    }

    constructor ()
      ensures Valid() && accounts == []
    {
      accounts := [];
    }

    /** `RegisterSerializer.save` on `validated` (`serializer.validated_data`). */
    method Register(validated: map<string, string>, hash: Hasher) returns (r: Result<Account, RegisterError>)
      requires Valid()
      modifies this
      ensures Valid()
      ensures (r, accounts) == RegisterOutcome(old(accounts), validated, hash)
    {
      RegisterPreservesUniqueness(accounts, validated, hash);
      if "password" !in validated {
        return Err(MissingKey("password"));
      }
      var password := validated["password"];
      if "confirm_password" !in validated {
        return Err(MissingKey("confirm_password"));
      }
      var confirmPassword := validated["confirm_password"];
      if password != confirmPassword {
        return Err(PasswordMismatch);
      }
      if "email" !in validated {
        return Err(MissingKey("email"));
      }
      if EmailRegistered(accounts, validated["email"]) {
        return Err(EmailTaken);
      }
      var missing := FirstMissing(validated, RowKeys);
      if missing.Some? {
        return Err(MissingKey(missing.value));
      }
      var account := Account(validated["username"], validated["email"], validated["first_name"],
                             validated["last_name"], "");
      account := account.(password := hash(password));
      if UsernameTaken(accounts, account.username) {
        return Err(SaveFailed);
      }
      accounts := accounts + [account];
      r := Ok(account);
    }
  }
}
