/**
 * Model of password_app/views.py: the add, view-all, update and delete views
 * as operations on the PasswordVault table, held in memory as a sequence of
 * rows in primary-key order.
 */
module Views {
  import opened Common
  import opened Text
  import opened Models
  import opened Utility

  /** The error responses of the four views. */
  datatype Failure =
    | ServerError                   // a KeyError or an uncaught ORM exception: HTTP 500
    | DuplicateEntry                // views.py:35-36
    | InvalidData                   // serializer.errors, views.py:53
    | Rejected(reason: Rejection)   // strength or breach, utility.py:27-33
    | PasswordKeysRequired          // views.py:95-96
    | OldPasswordMismatch           // views.py:100-101
    | EntryNotFound                 // views.py:109-110, 136-137
    | NameRequired                  // views.py:130-131

  function Status(f: Failure): int {
    match f
    case ServerError => 500
    case EntryNotFound => 404
    case NameRequired => 404
    case _ => 400
  }

  // ---------------------------------------------------------------------------
  // The table

  /** Row `i` matches a `PasswordVault.objects.get(...)` on user and name, and on the url when one is given. */
  predicate IsMatch(r: PasswordVault, user: string, name: string, url: Option<string>) {
    r.user == user && r.websiteName == name && (url.None? || r.websiteUrl == url.value)
  }

  /** The indices of the matching rows, in increasing order. */
  function Matching(entries: seq<PasswordVault>, user: string, name: string, url: Option<string>): (m: seq<nat>)
    ensures forall k :: 0 <= k < |m| ==> m[k] < |entries|
    ensures forall i :: i in m <==> 0 <= i < |entries| && IsMatch(entries[i], user, name, url)
    ensures forall a, b :: 0 <= a < b < |m| ==> m[a] < m[b]
    decreases |entries|
  {
    if entries == [] then []
    else
      var n := |entries| - 1;
      Matching(entries[..n], user, name, url) + (if IsMatch(entries[n], user, name, url) then [n] else [])
  }

  /** The filter at views.py:35: some row of `user` has website name `name`. */
  predicate HasSite(entries: seq<PasswordVault>, user: string, name: string) {
    exists i :: 0 <= i < |entries| && entries[i].user == user && entries[i].websiteName == name
  }

  /** No user has two rows with the same website name. */
  predicate UniqueSites(entries: seq<PasswordVault>) {
    forall i, j :: 0 <= i < j < |entries| && entries[i].user == entries[j].user
      ==> entries[i].websiteName != entries[j].websiteName
  }

  /** A stored password is the encryption of some password. */
  ghost predicate Sealed(e: Engine, stored: string)
    requires ValidEngine(e)
  {
    exists p :: EncryptPassword(e, p) == stored
  }

  /** What a sealed password decrypts to, and that it is the only password encrypting to it. */
  lemma Unseal(e: Engine, stored: string) returns (p: string)
    requires ValidEngine(e) && Sealed(e, stored)
    ensures EncryptPassword(e, p) == stored && DecryptPassword(e, stored) == Some(p)
    ensures forall q :: EncryptPassword(e, q) == stored ==> q == p
  {
    p :| EncryptPassword(e, p) == stored;
    DecryptEncrypt(e, p);
    forall q | EncryptPassword(e, q) == stored ensures q == p {
      EncryptInjective(e, p, q);
    }
  }

  /** What every row written through these views satisfies. */
  ghost predicate WellStored(e: Engine, urlOk: string -> bool, r: PasswordVault)
    requires ValidEngine(e)
  {
    Acceptable("user", r.user, urlOk) && Acceptable("website_name", r.websiteName, urlOk)
    && Acceptable("website_url", r.websiteUrl, urlOk) && IsLowered(r.websiteName)
    && Sealed(e, r.password)
  }

  ghost predicate AllWellStored(e: Engine, urlOk: string -> bool, entries: seq<PasswordVault>)
    requires ValidEngine(e)
  {
    forall i :: 0 <= i < |entries| ==> WellStored(e, urlOk, entries[i])
  }

  ghost predicate TableInvariant(e: Engine, urlOk: string -> bool, entries: seq<PasswordVault>)
    requires ValidEngine(e)
  {
    UniqueSites(entries) && AllWellStored(e, urlOk, entries)
  }

  /** The index in the old table of row `k` once row `i` is gone. */
  function Skip(k: nat, i: nat): nat {
    if k < i then k else k + 1
  }

  lemma UniqueAfterAppend(entries: seq<PasswordVault>, row: PasswordVault)
    requires UniqueSites(entries) && !HasSite(entries, row.user, row.websiteName)
    ensures UniqueSites(entries + [row])
  {
    var after := entries + [row];
    forall i, j | 0 <= i < j < |after| && after[i].user == after[j].user
      ensures after[i].websiteName != after[j].websiteName
    {
      if j == |entries| {
        assert after[i] == entries[i];
      }
    }
  }

  lemma StoredAfterAppend(e: Engine, urlOk: string -> bool, entries: seq<PasswordVault>, row: PasswordVault)
    requires ValidEngine(e) && AllWellStored(e, urlOk, entries) && WellStored(e, urlOk, row)
    ensures AllWellStored(e, urlOk, entries + [row])
  {
    var after := entries + [row];
    forall k | 0 <= k < |after| ensures WellStored(e, urlOk, after[k]) {
      if k < |entries| { assert after[k] == entries[k]; }
    }
  }

  lemma UniqueAfterRemove(entries: seq<PasswordVault>, i: nat)
    requires UniqueSites(entries) && i < |entries|
    ensures UniqueSites(entries[..i] + entries[i + 1..])
  {
    var after := entries[..i] + entries[i + 1..];
    forall a, b | 0 <= a < b < |after| && after[a].user == after[b].user
      ensures after[a].websiteName != after[b].websiteName
    {
      assert after[a] == entries[Skip(a, i)] && after[b] == entries[Skip(b, i)];
    }
  }

  lemma StoredAfterRemove(e: Engine, urlOk: string -> bool, entries: seq<PasswordVault>, i: nat)
    requires ValidEngine(e) && AllWellStored(e, urlOk, entries) && i < |entries|
    ensures AllWellStored(e, urlOk, entries[..i] + entries[i + 1..])
  {
    KeptAfterRemove(r => WellStored(e, urlOk, r), entries, i);
  }

  ghost predicate Every<T>(P: T -> bool, s: seq<T>) {
    forall k :: 0 <= k < |s| ==> P(s[k])
  }

  /** Removing one element keeps a property every element has. */
  lemma KeptAfterRemove<T>(P: T -> bool, s: seq<T>, i: nat)
    requires i < |s| && Every(P, s)
    ensures Every(P, s[..i] + s[i + 1..])
  {
    var after := s[..i] + s[i + 1..];
    forall k | 0 <= k < |after| ensures P(after[k]) {
      assert after[k] == s[Skip(k, i)];
    }
  }

  lemma UniqueAfterRepassword(entries: seq<PasswordVault>, i: nat, password: string)
    requires UniqueSites(entries) && i < |entries|
    ensures UniqueSites(entries[i := entries[i].(password := password)])
  {
    var after := entries[i := entries[i].(password := password)];
    assert forall k :: 0 <= k < |after| ==> after[k].user == entries[k].user && after[k].websiteName == entries[k].websiteName;
  }

  lemma StoredAfterReplace(e: Engine, urlOk: string -> bool, entries: seq<PasswordVault>, i: nat, row: PasswordVault)
    requires ValidEngine(e) && AllWellStored(e, urlOk, entries) && i < |entries| && WellStored(e, urlOk, row)
    ensures AllWellStored(e, urlOk, entries[i := row])
  {
    var after := entries[i := row];
    forall k | 0 <= k < |after| ensures WellStored(e, urlOk, after[k]) {
      if k != i { assert after[k] == entries[k]; } else { assert after[k] == row; }
    }
  }

  /** Under the invariant a `get` on user and name, with or without the url, finds at most one row. */
  lemma {:induction false} AtMostOneMatch(entries: seq<PasswordVault>, user: string, name: string, url: Option<string>)
    requires UniqueSites(entries)
    ensures |Matching(entries, user, name, url)| <= 1
    decreases |entries|
  {
    if entries != [] {
      var n := |entries| - 1;
      var prefix := entries[..n];
      assert UniqueSites(prefix) by {
        assert forall i :: 0 <= i < n ==> prefix[i] == entries[i];
      }
      AtMostOneMatch(prefix, user, name, url);
      if IsMatch(entries[n], user, name, url) {
        forall i | 0 <= i < n ensures !IsMatch(prefix[i], user, name, url) {
          assert prefix[i] == entries[i];
        }
        NoMatchNoRows(prefix, user, name, url);
      }
    }
  }

  lemma {:induction false} NoMatchNoRows(entries: seq<PasswordVault>, user: string, name: string, url: Option<string>)
    requires forall i :: 0 <= i < |entries| ==> !IsMatch(entries[i], user, name, url)
    ensures Matching(entries, user, name, url) == []
    decreases |entries|
  {
    if entries != [] {
      var n := |entries| - 1;
      assert forall i :: 0 <= i < n ==> entries[..n][i] == entries[i];
      NoMatchNoRows(entries[..n], user, name, url);
    }
  }

  // ---------------------------------------------------------------------------
  // AddPassword.post (views.py:28-53)

  /** `if autogenerate:` on the query parameter: present and non-empty (so "false" counts too). */
  predicate Autogenerates(autogenerate: Option<string>) {
    autogenerate.Some? && autogenerate.value != ""
  }

  /** What the add view relies on about `request.user.username`: it has no surrounding whitespace. */
  predicate Username(u: string) {
    Strip(u) == u
  }

  /** The website name the serializer will save: lowered by the view, then stripped by the field. */
  function SavedName(raw: string): string {
    Strip(Lower(raw))
  }

  /** The duplicate test as written at views.py:35: on the lowered name, before the field strips it. */
  predicate DuplicateAsWritten(entries: seq<PasswordVault>, user: string, raw: string) {
    HasSite(entries, user, Lower(raw))
  }

  /** The duplicate test on the name that would be saved. */
  predicate DuplicateGuard(entries: seq<PasswordVault>, user: string, raw: string) {
    HasSite(entries, user, SavedName(raw))
  }

  /** The request data after views.py:32-33 and 38-39. */
  function Prepared(data: map<string, string>, currentUser: string, autogenerate: Option<string>, draw: nat -> nat): map<string, string>
    requires "website_name" in data
  {
    var d := data["user" := currentUser]["website_name" := Lower(data["website_name"])];
    if Autogenerates(autogenerate) then d["password" := Generated(draw)] else d
  }

  /** The two steps of views.py:32-33 and 38-39 build `Prepared`. */
  lemma PreparedSteps(data: map<string, string>, currentUser: string, autogenerate: Option<string>, draw: nat -> nat,
                      lowered: map<string, string>, d: map<string, string>)
    requires "website_name" in data
    requires lowered == data["user" := currentUser]["website_name" := Lower(data["website_name"])]
    requires d == if Autogenerates(autogenerate) then lowered["password" := Generated(draw)] else lowered
    ensures d == Prepared(data, currentUser, autogenerate, draw)
  {
  }

  lemma PreparedFields(data: map<string, string>, currentUser: string, autogenerate: Option<string>, draw: nat -> nat)
    requires "website_name" in data
    ensures var d := Prepared(data, currentUser, autogenerate, draw);
            d["user"] == currentUser && d["website_name"] == Lower(data["website_name"])
            && ("website_url" in d <==> "website_url" in data)
            && ("website_url" in data ==> d["website_url"] == data["website_url"])
            && ("password" in d <==> Autogenerates(autogenerate) || "password" in data)
            && (Autogenerates(autogenerate) ==> d["password"] == Generated(draw))
            && (!Autogenerates(autogenerate) && "password" in data ==> d["password"] == data["password"])
  {
  }

  /**
   * The response and the new table of an add request, with the duplicate test
   * on the name that will be saved (see `AddOutcomeAsWritten` for the test at
   * views.py:35). A failure saves nothing; a success appends one row and keeps
   * the others in place.
   */
  function AddOutcome(e: Engine, breached: string -> bool, urlOk: string -> bool, draw: nat -> nat,
                      entries: seq<PasswordVault>, currentUser: string, data: map<string, string>,
                      autogenerate: Option<string>, now: int): (out: (Result<(), Failure>, seq<PasswordVault>))
    requires ValidEngine(e)
    ensures out.0.Err? ==> out.1 == entries
    ensures out.0.Ok? ==> |out.1| == |entries| + 1 && out.1[..|entries|] == entries
  {
    if "website_name" !in data then (Err(ServerError), entries)
    else if DuplicateGuard(entries, currentUser, data["website_name"]) then (Err(DuplicateEntry), entries)
    else match ValidateVaultData(Prepared(data, currentUser, autogenerate, draw), urlOk)
      case None => (Err(InvalidData), entries)
      case Some(v) => Commit(e, breached, entries, v, now)
  }

  /** `AddPassword.post` exactly as written: the duplicate test looks up the lowered, unstripped name. */
  function AddOutcomeAsWritten(e: Engine, breached: string -> bool, urlOk: string -> bool, draw: nat -> nat,
                               entries: seq<PasswordVault>, currentUser: string, data: map<string, string>,
                               autogenerate: Option<string>, now: int): (out: (Result<(), Failure>, seq<PasswordVault>))
    requires ValidEngine(e)
    ensures out.0.Err? ==> out.1 == entries
    ensures out.0.Ok? ==> |out.1| == |entries| + 1 && out.1[..|entries|] == entries
  {
    if "website_name" !in data then (Err(ServerError), entries)
    else if DuplicateAsWritten(entries, currentUser, data["website_name"]) then (Err(DuplicateEntry), entries)
    else match ValidateVaultData(Prepared(data, currentUser, autogenerate, draw), urlOk)
      case None => (Err(InvalidData), entries)
      case Some(v) => Commit(e, breached, entries, v, now)
  }

  /** The last steps of an add, on validated data: the gate, then the save. */
  function Commit(e: Engine, breached: string -> bool, entries: seq<PasswordVault>, v: map<string, string>, now: int)
    : (out: (Result<(), Failure>, seq<PasswordVault>))
    requires ValidEngine(e) && VaultFields <= v.Keys
    ensures out.0.Err? ==> out.1 == entries
    ensures out.0.Ok? ==> |out.1| == |entries| + 1 && out.1[..|entries|] == entries
  {
    match Gate(e, breached, v)
    case Err(why) => (Err(Rejected(why)), entries)
    case Ok(g) => (Ok(()), entries + [Saved(g, now)])
  }

  /** What `Commit` yields once the gate's verdict `res` is known. */
  lemma CommitOutcome(e: Engine, breached: string -> bool, entries: seq<PasswordVault>, v: map<string, string>,
                      now: int, res: Result<map<string, string>, Rejection>)
    requires ValidEngine(e) && VaultFields <= v.Keys && res == Gate(e, breached, v)
    ensures res.Err? ==> Commit(e, breached, entries, v, now) == (Err(Rejected(res.error)), entries)
    ensures res.Ok? ==> VaultFields <= res.value.Keys
    ensures res.Ok? ==> Commit(e, breached, entries, v, now) == (Ok(()), entries + [Saved(res.value, now)])
  {
  }

  /** The plaintext an add request would store: the generated one, or the supplied one once stripped. */
  function AddedPlaintext(data: map<string, string>, autogenerate: Option<string>, draw: nat -> nat): string
    requires Autogenerates(autogenerate) || "password" in data
  {
    if Autogenerates(autogenerate) then Generated(draw) else Strip(data["password"])
  }

  /**
   * A successful add appends exactly one row: the current user's, for the
   * lowered and stripped name, holding the encryption of the (possibly
   * generated) password and the creation time, and only after that password
   * got past the strength branch and the breach lookup.
   */
  lemma AddSuccessShape(e: Engine, breached: string -> bool, urlOk: string -> bool, draw: nat -> nat,
                        entries: seq<PasswordVault>, currentUser: string, data: map<string, string>,
                        autogenerate: Option<string>, now: int)
    requires ValidEngine(e)
    requires AddOutcome(e, breached, urlOk, draw, entries, currentUser, data, autogenerate, now).0.Ok?
    ensures "website_name" in data && "website_url" in data
    ensures Autogenerates(autogenerate) || "password" in data
    ensures !StrengthBranchRejects(AddedPlaintext(data, autogenerate, draw))
    ensures !breached(AddedPlaintext(data, autogenerate, draw))
    ensures Acceptable("user", Strip(currentUser), urlOk) && Acceptable("website_name", SavedName(data["website_name"]), urlOk)
            && Acceptable("website_url", Strip(data["website_url"]), urlOk)
    ensures AddOutcome(e, breached, urlOk, draw, entries, currentUser, data, autogenerate, now).1
            == entries + [PasswordVault(Strip(currentUser), SavedName(data["website_name"]), Strip(data["website_url"]),
                                        EncryptPassword(e, AddedPlaintext(data, autogenerate, draw)), now)]
  {
    var d := Prepared(data, currentUser, autogenerate, draw);
    PreparedFields(data, currentUser, autogenerate, draw);
    var v := ValidateVaultData(d, urlOk).value;
    assert VaultFields == {"user", "website_name", "website_url", "password"};
    assert v["password"] == Strip(d["password"]);
    if Autogenerates(autogenerate) {
      GeneratedIsStripped(draw);
    }
    GateOutcomes(e, breached, v);
    var g := Gate(e, breached, v).value;
    assert g["user"] == v["user"] && g["website_name"] == v["website_name"] && g["website_url"] == v["website_url"];
  }

  /** An add for a name the user already holds, in any letter case, fails and changes nothing. */
  lemma AddRejectsDuplicate(e: Engine, breached: string -> bool, urlOk: string -> bool, draw: nat -> nat,
                            entries: seq<PasswordVault>, currentUser: string, data: map<string, string>,
                            autogenerate: Option<string>, now: int)
    requires ValidEngine(e) && TableInvariant(e, urlOk, entries)
    requires "website_name" in data && DuplicateAsWritten(entries, currentUser, data["website_name"])
    ensures AddOutcome(e, breached, urlOk, draw, entries, currentUser, data, autogenerate, now)
            == (Err(DuplicateEntry), entries)
  {
    GuardCoversAsWritten(e, urlOk, entries, currentUser, data["website_name"]);
  }

  /** On a table whose names are stripped, the guard fires whenever the as-written test does. */
  lemma GuardCoversAsWritten(e: Engine, urlOk: string -> bool, entries: seq<PasswordVault>, user: string, raw: string)
    requires ValidEngine(e) && TableInvariant(e, urlOk, entries)
    requires DuplicateAsWritten(entries, user, raw)
    ensures DuplicateGuard(entries, user, raw)
  {
    var i :| 0 <= i < |entries| && entries[i].user == user && entries[i].websiteName == Lower(raw);
    assert WellStored(e, urlOk, entries[i]);
    assert Strip(Lower(raw)) == Lower(raw);
  }

  /**
   * The add view as written saves a duplicate end to end: on a well-formed
   * table where the user holds the name `name`, a request for " " + `name`
   * with acceptable fields and a password that passes the gate succeeds under
   * the test at views.py:35 and leaves the user two rows for `name`, where the
   * add with the corrected test refuses it and saves nothing.
   */
  lemma AsWrittenAddSavesDuplicate(e: Engine, breached: string -> bool, urlOk: string -> bool, draw: nat -> nat,
                                   entries: seq<PasswordVault>, user: string, name: string,
                                   data: map<string, string>, now: int)
    requires ValidEngine(e) && TableInvariant(e, urlOk, entries) && HasSite(entries, user, name)
    requires Acceptable("user", user, urlOk) && Acceptable("website_name", name, urlOk) && IsLowered(name)
    requires "website_name" in data && data["website_name"] == [' '] + name
    requires "website_url" in data && Acceptable("website_url", Strip(data["website_url"]), urlOk)
    requires "password" in data && Acceptable("password", Strip(data["password"]), urlOk)
    requires !StrengthBranchRejects(Strip(data["password"])) && !breached(Strip(data["password"]))
    ensures var out := AddOutcomeAsWritten(e, breached, urlOk, draw, entries, user, data, None, now);
            out.0 == Ok(())
            && out.1 == entries + [PasswordVault(user, name, Strip(data["website_url"]),
                                                 EncryptPassword(e, Strip(data["password"])), now)]
            && !UniqueSites(out.1)
    ensures AddOutcome(e, breached, urlOk, draw, entries, user, data, None, now) == (Err(DuplicateEntry), entries)
  {
    var raw := [' '] + name;
    SpacedName(name);
    assert !DuplicateAsWritten(entries, user, raw) by {
      SpacedNameAbsent(e, urlOk, entries, user, name);
    }
    var v := SpacedRequestValidated(urlOk, draw, user, name, data);
    AsWrittenAddCommits(e, breached, urlOk, draw, entries, user, data, None, now, v);
    DuplicateAfterAppend(entries, PasswordVault(user, name, Strip(data["website_url"]),
                                                EncryptPassword(e, Strip(data["password"])), now));
  }

  /**
   * The instance for "github": alice holds "github", and her request for
   * " github" with the password "correcthorse" is saved beside it by the add
   * as written and refused by the corrected one.
   */
  lemma AsWrittenAddSavesSecondGithub(e: Engine, breached: string -> bool, urlOk: string -> bool, draw: nat -> nat,
                                      entries: seq<PasswordVault>, data: map<string, string>, now: int)
    requires ValidEngine(e) && TableInvariant(e, urlOk, entries) && HasSite(entries, "alice", "github")
    requires urlOk("https://github.com") && !breached("correcthorse")
    requires "website_name" in data && data["website_name"] == " github"
    requires "website_url" in data && data["website_url"] == "https://github.com"
    requires "password" in data && data["password"] == "correcthorse"
    ensures var out := AddOutcomeAsWritten(e, breached, urlOk, draw, entries, "alice", data, None, now);
            out.0 == Ok(()) && |out.1| == |entries| + 1 && !UniqueSites(out.1)
    ensures AddOutcome(e, breached, urlOk, draw, entries, "alice", data, None, now) == (Err(DuplicateEntry), entries)
  {
    GithubFieldsAcceptable(urlOk);
    StrengthBranchReading(data["password"]);
    AsWrittenAddSavesDuplicate(e, breached, urlOk, draw, entries, "alice", "github", data, now);
  }

  /** The literal fields of `AsWrittenAddSavesSecondGithub` are acceptable. */
  lemma GithubFieldsAcceptable(urlOk: string -> bool)
    requires urlOk("https://github.com")
    ensures Acceptable("user", "alice", urlOk) && Acceptable("website_name", "github", urlOk) && IsLowered("github")
    ensures Strip("https://github.com") == "https://github.com" && Acceptable("website_url", "https://github.com", urlOk)
    ensures Strip("correcthorse") == "correcthorse" && Acceptable("password", "correcthorse", urlOk)
    ensures " github" == [' '] + "github"
  {
    GithubNameAcceptable(urlOk);
    GithubUrlAcceptable(urlOk);
    CorrectHorseAcceptable(urlOk);
  }

  lemma GithubNameAcceptable(urlOk: string -> bool)
    ensures Acceptable("user", "alice", urlOk) && Acceptable("website_name", "github", urlOk) && IsLowered("github")
    ensures " github" == [' '] + "github"
  {
    GithubLowered();
  }

  lemma GithubUrlAcceptable(urlOk: string -> bool)
    requires urlOk("https://github.com")
    ensures Strip("https://github.com") == "https://github.com" && Acceptable("website_url", "https://github.com", urlOk)
  {
    StripFixed("https://github.com");
  }

  lemma CorrectHorseAcceptable(urlOk: string -> bool)
    ensures Strip("correcthorse") == "correcthorse" && Acceptable("password", "correcthorse", urlOk)
  {
    StripFixed("correcthorse");
  }

  /** A lowered, stripped name behind one space is its own lowering and is saved as the name. */
  lemma SpacedName(name: string)
    requires name != [] && Stripped(name) && IsLowered(name)
    ensures Lower([' '] + name) == [' '] + name && SavedName([' '] + name) == name
  {
    var raw := [' '] + name;
    assert IsLowered(raw) by {
      forall i | 0 <= i < |raw| ensures !IsAsciiUpper(raw[i]) {
        if i > 0 { assert raw[i] == name[i - 1]; }
      }
    }
    LoweredFixed(raw);
    StripLeftSpace(' ', name);
    StripFixed(name);
  }

  /** No row of a well-formed table has a name starting with a space. */
  lemma SpacedNameAbsent(e: Engine, urlOk: string -> bool, entries: seq<PasswordVault>, user: string, name: string)
    requires ValidEngine(e) && AllWellStored(e, urlOk, entries)
    ensures !HasSite(entries, user, [' '] + name)
  {
    forall i | 0 <= i < |entries| ensures entries[i].websiteName != [' '] + name {
      assert WellStored(e, urlOk, entries[i]);
    }
  }

  /** The request of `AsWrittenAddSavesDuplicate` passes the serializer with the name stripped. */
  lemma SpacedRequestValidated(urlOk: string -> bool, draw: nat -> nat, user: string, name: string,
                               data: map<string, string>) returns (v: map<string, string>)
    requires Acceptable("user", user, urlOk) && Acceptable("website_name", name, urlOk)
    requires "website_name" in data && Lower(data["website_name"]) == [' '] + name
    requires SavedName(data["website_name"]) == name
    requires "website_url" in data && Acceptable("website_url", Strip(data["website_url"]), urlOk)
    requires "password" in data && Acceptable("password", Strip(data["password"]), urlOk)
    ensures ValidateVaultData(Prepared(data, user, None, draw), urlOk) == Some(v)
    ensures v["user"] == user && v["website_name"] == name
    ensures v["website_url"] == Strip(data["website_url"]) && v["password"] == Strip(data["password"])
  {
    var d := Prepared(data, user, None, draw);
    PreparedFields(data, user, None, draw);
    StripFixed(user);
    assert FieldsAcceptable(d, urlOk);
    v := ValidateVaultData(d, urlOk).value;
    assert "user" in VaultFields && "website_name" in VaultFields;
    assert "website_url" in VaultFields && "password" in VaultFields;
  }

  /**
   * The add as written appends the row built from the validated data, with the
   * password encrypted, once the name passes views.py:35 and the password
   * passes the gate.
   */
  lemma AsWrittenAddCommits(e: Engine, breached: string -> bool, urlOk: string -> bool, draw: nat -> nat,
                            entries: seq<PasswordVault>, currentUser: string, data: map<string, string>,
                            autogenerate: Option<string>, now: int, v: map<string, string>)
    requires ValidEngine(e) && "website_name" in data
    requires !DuplicateAsWritten(entries, currentUser, data["website_name"])
    requires ValidateVaultData(Prepared(data, currentUser, autogenerate, draw), urlOk) == Some(v)
    requires !StrengthBranchRejects(v["password"]) && !breached(v["password"])
    ensures AddOutcomeAsWritten(e, breached, urlOk, draw, entries, currentUser, data, autogenerate, now)
            == (Ok(()), entries + [PasswordVault(v["user"], v["website_name"], v["website_url"],
                                                 EncryptPassword(e, v["password"]), now)])
  {
    GateOutcomes(e, breached, v);
    var g := Gate(e, breached, v).value;
    AsWrittenAddSaves(e, breached, urlOk, draw, entries, currentUser, data, autogenerate, now, v, g);
    GatedRow(e, breached, v, g, now);
  }

  lemma AsWrittenAddSaves(e: Engine, breached: string -> bool, urlOk: string -> bool, draw: nat -> nat,
                          entries: seq<PasswordVault>, currentUser: string, data: map<string, string>,
                          autogenerate: Option<string>, now: int, v: map<string, string>, g: map<string, string>)
    requires ValidEngine(e) && "website_name" in data
    requires !DuplicateAsWritten(entries, currentUser, data["website_name"])
    requires ValidateVaultData(Prepared(data, currentUser, autogenerate, draw), urlOk) == Some(v)
    requires Gate(e, breached, v) == Ok(g)
    ensures VaultFields <= g.Keys
    ensures AddOutcomeAsWritten(e, breached, urlOk, draw, entries, currentUser, data, autogenerate, now)
            == (Ok(()), entries + [Saved(g, now)])
  {
    CommitOutcome(e, breached, entries, v, now, Gate(e, breached, v));
  }

  /** The row saved from gated data: the validated fields, with the password encrypted. */
  lemma GatedRow(e: Engine, breached: string -> bool, v: map<string, string>, g: map<string, string>, now: int)
    requires ValidEngine(e) && VaultFields <= v.Keys && Gate(e, breached, v) == Ok(g)
    ensures VaultFields <= g.Keys
    ensures Saved(g, now) == PasswordVault(v["user"], v["website_name"], v["website_url"],
                                           EncryptPassword(e, v["password"]), now)
  {
    GateOutcomes(e, breached, v);
    assert "user" in VaultFields && "website_name" in VaultFields && "website_url" in VaultFields;
  }

  /** Appending a row for a name its user already holds breaks uniqueness. */
  lemma DuplicateAfterAppend(entries: seq<PasswordVault>, row: PasswordVault)
    requires HasSite(entries, row.user, row.websiteName)
    ensures !UniqueSites(entries + [row])
  {
    var i :| 0 <= i < |entries| && entries[i].user == row.user && entries[i].websiteName == row.websiteName;
    var after := entries + [row];
    assert after[i] == entries[i] && after[|entries|] == row;
  }

  lemma GithubLowered()
    ensures IsLowered("github")
  {
    var g := "github";
    forall i | 0 <= i < |g| ensures !IsAsciiUpper(g[i]) {
    }
  }

  /** A row with acceptable fields, a lowered and stripped name and an encrypted password is well stored. */
  lemma NewRowWellStored(e: Engine, urlOk: string -> bool, row: PasswordVault, raw: string, p: string)
    requires ValidEngine(e) && row.websiteName == SavedName(raw) && row.password == EncryptPassword(e, p)
    requires Acceptable("user", row.user, urlOk) && Acceptable("website_name", row.websiteName, urlOk)
    requires Acceptable("website_url", row.websiteUrl, urlOk)
    ensures WellStored(e, urlOk, row)
  {
    LowerThenStripLowered(raw);
  }

  /**
   * The corrected add keeps the table invariant: in particular no user ends up
   * with two rows for one name. Usernames contain no whitespace (Django's username
   * validator admits none), so the name the guard looks for is the one saved.
   */
  lemma AddPreservesInvariant(e: Engine, breached: string -> bool, urlOk: string -> bool, draw: nat -> nat,
                              entries: seq<PasswordVault>, currentUser: string, data: map<string, string>,
                              autogenerate: Option<string>, now: int)
    requires ValidEngine(e) && TableInvariant(e, urlOk, entries) && Username(currentUser)
    ensures TableInvariant(e, urlOk, AddOutcome(e, breached, urlOk, draw, entries, currentUser, data, autogenerate, now).1)
  {
    if AddOutcome(e, breached, urlOk, draw, entries, currentUser, data, autogenerate, now).0.Ok? {
      AddSuccessShape(e, breached, urlOk, draw, entries, currentUser, data, autogenerate, now);
      var raw := data["website_name"];
      var p := AddedPlaintext(data, autogenerate, draw);
      var row := PasswordVault(currentUser, SavedName(raw), Strip(data["website_url"]), EncryptPassword(e, p), now);
      NewRowWellStored(e, urlOk, row, raw, p);
      UniqueAfterAppend(entries, row);
      StoredAfterAppend(e, urlOk, entries, row);
    } else {
      assert AddOutcome(e, breached, urlOk, draw, entries, currentUser, data, autogenerate, now).1 == entries;
    }
  }

  /**
   * What the save step needs of validated data to keep the table invariant:
   * acceptable user, name and url, a lowered name, and no row of the user for
   * that name yet.
   */
  predicate Saveable(urlOk: string -> bool, entries: seq<PasswordVault>, v: map<string, string>)
    requires VaultFields <= v.Keys
  {
    Acceptable("user", v["user"], urlOk) && Acceptable("website_name", v["website_name"], urlOk)
    && Acceptable("website_url", v["website_url"], urlOk) && IsLowered(v["website_name"])
    && !HasSite(entries, v["user"], v["website_name"])
  }

  /** Saving saveable data keeps the table invariant, whatever the gate decides. */
  lemma CommitPreservesInvariant(e: Engine, breached: string -> bool, urlOk: string -> bool,
                                 entries: seq<PasswordVault>, v: map<string, string>, now: int)
    requires ValidEngine(e) && TableInvariant(e, urlOk, entries)
    requires VaultFields <= v.Keys && Saveable(urlOk, entries, v)
    ensures TableInvariant(e, urlOk, Commit(e, breached, entries, v, now).1)
  {
    var res := Gate(e, breached, v);
    CommitOutcome(e, breached, entries, v, now, res);
    if res.Ok? {
      GatedRow(e, breached, v, res.value, now);
      var row := Saved(res.value, now);
      assert Sealed(e, row.password) by {
        assert EncryptPassword(e, v["password"]) == row.password;
      }
      assert WellStored(e, urlOk, row);
      UniqueAfterAppend(entries, row);
      StoredAfterAppend(e, urlOk, entries, row);
    }
  }

  /** Data that passed the corrected duplicate test and the serializer is saveable. */
  lemma ValidatedSaveable(urlOk: string -> bool, draw: nat -> nat, entries: seq<PasswordVault>, currentUser: string,
                          data: map<string, string>, autogenerate: Option<string>)
    requires Username(currentUser) && "website_name" in data
    requires !DuplicateGuard(entries, currentUser, data["website_name"])
    requires ValidateVaultData(Prepared(data, currentUser, autogenerate, draw), urlOk).Some?
    ensures var v := ValidateVaultData(Prepared(data, currentUser, autogenerate, draw), urlOk).value;
            VaultFields <= v.Keys && Saveable(urlOk, entries, v)
  {
    var d := Prepared(data, currentUser, autogenerate, draw);
    PreparedFields(data, currentUser, autogenerate, draw);
    var v := ValidateVaultData(d, urlOk).value;
    assert "user" in VaultFields && "website_name" in VaultFields && "website_url" in VaultFields;
    assert v["user"] == currentUser && v["website_name"] == SavedName(data["website_name"]);
    LowerThenStripLowered(data["website_name"]);
  }

  // ---------------------------------------------------------------------------
  // ViewAllPassword.get (views.py:68-73)

  /** `PasswordVault.objects.filter(user=user)`, in table order. */
  function Owned(entries: seq<PasswordVault>, user: string): (rows: seq<PasswordVault>)
    ensures |rows| <= |entries|
    ensures forall r :: r in rows <==> r in entries && r.user == user
    decreases |entries|
  {
    if entries == [] then []
    else
      var n := |entries| - 1;
      Owned(entries[..n], user) + (if entries[n].user == user then [entries[n]] else [])
  }

  /** The filter keeps each of the user's rows as often as the table holds it, and no other row. */
  lemma {:induction false} OwnedCounts(entries: seq<PasswordVault>, user: string)
    ensures forall r :: multiset(Owned(entries, user))[r] == if r.user == user then multiset(entries)[r] else 0
    decreases |entries|
  {
    if entries != [] {
      var n := |entries| - 1;
      assert entries == entries[..n] + [entries[n]];
      OwnedCounts(entries[..n], user);
    }
  }

  /** The filter distributes over concatenation, so it keeps the table's order. */
  lemma {:induction false} OwnedAppend(a: seq<PasswordVault>, b: seq<PasswordVault>, user: string)
    ensures Owned(a + b, user) == Owned(a, user) + Owned(b, user)
    decreases |b|
  {
    if b == [] {
      assert a + b == a;
    } else {
      var n := |b| - 1;
      var last := if b[n].user == user then [b[n]] else [];
      assert (a + b)[..|a| + n] == a + b[..n];
      assert (a + b)[|a| + n] == b[n];
      OwnedAppend(a, b[..n], user);
      calc {
        Owned(a + b, user);
        Owned(a + b[..n], user) + last;
        Owned(a, user) + Owned(b[..n], user) + last;
        Owned(a, user) + (Owned(b[..n], user) + last);
      }
    }
  }

  predicate AllDecrypt(e: Engine, rows: seq<PasswordVault>)
    requires ValidEngine(e)
  {
    forall i :: 0 <= i < |rows| ==> DecryptPassword(e, rows[i].password).Some?
  }

  /** The rows `ViewAllPassword` returns: the user's rows with each password decrypted. */
  function Revealed(e: Engine, rows: seq<PasswordVault>): (shown: seq<PasswordVault>)
    requires ValidEngine(e) && AllDecrypt(e, rows)
    ensures |shown| == |rows|
  {
    seq(|rows|, i requires 0 <= i < |rows| => rows[i].(password := DecryptPassword(e, rows[i].password).value))
  }

  lemma StoredDecrypts(e: Engine, urlOk: string -> bool, entries: seq<PasswordVault>, i: int)
    requires ValidEngine(e) && TableInvariant(e, urlOk, entries) && 0 <= i < |entries|
    ensures DecryptPassword(e, entries[i].password).Some?
  {
    assert WellStored(e, urlOk, entries[i]);
    var p := Unseal(e, entries[i].password);
  }

  lemma OwnedDecrypt(e: Engine, urlOk: string -> bool, entries: seq<PasswordVault>, user: string)
    requires ValidEngine(e) && TableInvariant(e, urlOk, entries)
    ensures AllDecrypt(e, Owned(entries, user))
  {
    forall i | 0 <= i < |entries| ensures DecryptPassword(e, entries[i].password).Some? {
      StoredDecrypts(e, urlOk, entries, i);
    }
    FilterDecrypts(e, entries, user);
  }

  lemma {:induction false} FilterDecrypts(e: Engine, entries: seq<PasswordVault>, user: string)
    requires ValidEngine(e) && AllDecrypt(e, entries)
    ensures AllDecrypt(e, Owned(entries, user))
    decreases |entries|
  {
    if entries != [] {
      var n := |entries| - 1;
      assert AllDecrypt(e, entries[..n]) by {
        forall i | 0 <= i < n ensures DecryptPassword(e, entries[..n][i].password).Some? {
          assert entries[..n][i] == entries[i];
        }
      }
      FilterDecrypts(e, entries[..n], user);
    }
  }

  /** A new row of `user` holding the encryption of `p` shows up last in their view, with password `p`. */
  lemma RevealAfterAppend(e: Engine, urlOk: string -> bool, entries: seq<PasswordVault>, row: PasswordVault, p: string)
    requires ValidEngine(e) && TableInvariant(e, urlOk, entries)
    requires row.password == EncryptPassword(e, p)
    ensures var before := Owned(entries, row.user);
            var after := Owned(entries + [row], row.user);
            AllDecrypt(e, before) && AllDecrypt(e, after) &&
            Revealed(e, after) == Revealed(e, before) + [row.(password := p)]
  {
    var all := entries + [row];
    assert all[..|entries|] == entries;
    OwnedDecrypt(e, urlOk, entries, row.user);
    DecryptEncrypt(e, p);
    var before := Owned(entries, row.user);
    assert Owned(all, row.user) == before + [row];
    RevealedAppend(e, before, row);
  }

  lemma RevealedAppend(e: Engine, rows: seq<PasswordVault>, row: PasswordVault)
    requires ValidEngine(e) && AllDecrypt(e, rows) && DecryptPassword(e, row.password).Some?
    ensures AllDecrypt(e, rows + [row])
    ensures Revealed(e, rows + [row]) == Revealed(e, rows) + [row.(password := DecryptPassword(e, row.password).value)]
  {
    var all := rows + [row];
    assert forall i :: 0 <= i < |rows| ==> all[i] == rows[i];
    assert AllDecrypt(e, all);
    var lhs, rhs := Revealed(e, all), Revealed(e, rows) + [row.(password := DecryptPassword(e, row.password).value)];
    forall i | 0 <= i < |all| ensures lhs[i] == rhs[i] {
      if i < |rows| { assert all[i] == rows[i]; }
    }
  }

  /** The loop at views.py:71-72: each row's password replaced by its decryption, in place. */
  method RevealAll(e: Engine, allEntries: seq<PasswordVault>) returns (rows: seq<PasswordVault>)
    requires ValidEngine(e) && AllDecrypt(e, allEntries)
    ensures rows == Revealed(e, allEntries)
  {
    ghost var shown := Revealed(e, allEntries);
    rows := allEntries;
    for i := 0 to |rows|
      invariant |rows| == |allEntries|
      invariant forall k :: 0 <= k < i ==> rows[k] == shown[k]
      invariant forall k :: i <= k < |rows| ==> rows[k] == allEntries[k]
    {
      rows := rows[i := rows[i].(password := DecryptPassword(e, rows[i].password).value)];
    }
  }

  /** An add that succeeds for a user whose name needs no stripping is visible in that user's view. */
  lemma AddedPasswordIsShown(e: Engine, breached: string -> bool, urlOk: string -> bool, draw: nat -> nat,
                             entries: seq<PasswordVault>, currentUser: string, data: map<string, string>,
                             autogenerate: Option<string>, now: int)
    requires ValidEngine(e) && TableInvariant(e, urlOk, entries)
    requires Strip(currentUser) == currentUser
    requires AddOutcome(e, breached, urlOk, draw, entries, currentUser, data, autogenerate, now).0.Ok?
    ensures var after := AddOutcome(e, breached, urlOk, draw, entries, currentUser, data, autogenerate, now).1;
            var before := Owned(entries, currentUser);
            var now_ := Owned(after, currentUser);
            "website_name" in data && (Autogenerates(autogenerate) || "password" in data) &&
            AllDecrypt(e, before) && AllDecrypt(e, now_) &&
            |Revealed(e, now_)| == |before| + 1 &&
            Revealed(e, now_)[|before|].password == AddedPlaintext(data, autogenerate, draw)
  {
    AddSuccessShape(e, breached, urlOk, draw, entries, currentUser, data, autogenerate, now);
    var p := AddedPlaintext(data, autogenerate, draw);
    var row := PasswordVault(currentUser, SavedName(data["website_name"]), Strip(data["website_url"]), EncryptPassword(e, p), now);
    RevealAfterAppend(e, urlOk, entries, row, p);
  }

  // ---------------------------------------------------------------------------
  // UpdatePassword.post (views.py:91-110)

  /**
   * The response and the new table of an update request. A failure changes
   * nothing; a success changes passwords only: every row keeps its user, its
   * names, its url and its creation time.
   */
  function UpdateOutcome(e: Engine, entries: seq<PasswordVault>, currentUser: string, data: map<string, string>)
    : (out: (Result<(), Failure>, seq<PasswordVault>))
    requires ValidEngine(e)
    ensures out.0.Err? ==> out.1 == entries
    ensures |out.1| == |entries|
    ensures forall i :: 0 <= i < |entries| ==> out.1[i] == entries[i].(password := out.1[i].password)
  {
    if "old_password" !in data || "new_password" !in data then (Err(PasswordKeysRequired), entries)
    else if "website_name" !in data || "website_url" !in data then (Err(ServerError), entries)
    else
      var m := Matching(entries, currentUser, data["website_name"], Some(data["website_url"]));
      if |m| == 0 then (Err(EntryNotFound), entries)
      else if |m| > 1 then (Err(ServerError), entries)
      else if entries[m[0]].password != EncryptPassword(e, data["old_password"]) then (Err(OldPasswordMismatch), entries)
      else (Ok(()), entries[m[0] := entries[m[0]].(password := EncryptPassword(e, data["new_password"]))])
  }

  /**
   * An update without `old_password` or `new_password` is refused with a 400
   * before anything else; one with both but without `website_name` or
   * `website_url` raises a KeyError, a 500. Neither, nor any other failure,
   * changes the table.
   */
  lemma UpdateFailureKeepsTable(e: Engine, entries: seq<PasswordVault>, currentUser: string, data: map<string, string>)
    requires ValidEngine(e)
    ensures "old_password" !in data || "new_password" !in data ==>
              UpdateOutcome(e, entries, currentUser, data) == (Err(PasswordKeysRequired), entries)
              && Status(PasswordKeysRequired) == 400
    ensures "old_password" in data && "new_password" in data && ("website_name" !in data || "website_url" !in data) ==>
              UpdateOutcome(e, entries, currentUser, data) == (Err(ServerError), entries)
              && Status(ServerError) == 500
  {
  }

  /**
   * `created_at` is written once: an add stamps the new row with the time of
   * the request and leaves the other rows alone, and an update, which saves
   * the password field only, keeps every row's creation time.
   */
  lemma CreatedAtSetOnce(e: Engine, breached: string -> bool, urlOk: string -> bool, draw: nat -> nat,
                         entries: seq<PasswordVault>, currentUser: string, addData: map<string, string>,
                         autogenerate: Option<string>, now: int, updateData: map<string, string>)
    requires ValidEngine(e)
    ensures var (r, after) := AddOutcome(e, breached, urlOk, draw, entries, currentUser, addData, autogenerate, now);
            after[..|entries|] == entries && (r.Ok? ==> after[|entries|].createdAt == now)
    ensures var after := UpdateOutcome(e, entries, currentUser, updateData).1;
            forall i :: 0 <= i < |entries| ==> after[i].createdAt == entries[i].createdAt
  {
    if AddOutcome(e, breached, urlOk, draw, entries, currentUser, addData, autogenerate, now).0.Ok? {
      AddSuccessShape(e, breached, urlOk, draw, entries, currentUser, addData, autogenerate, now);
    }
  }

  /**
   * On a table that keeps the invariant, an update with both password keys and
   * the address keys succeeds exactly when a row matches (user, name, url) and
   * its password decrypts to the old password; then that row's password, and
   * nothing else, becomes the encryption of the new one.
   */
  lemma UpdateSemantics(e: Engine, urlOk: string -> bool, entries: seq<PasswordVault>, currentUser: string, data: map<string, string>)
    requires ValidEngine(e) && TableInvariant(e, urlOk, entries)
    requires VaultKeys(data)
    ensures var (r, after) := UpdateOutcome(e, entries, currentUser, data);
            r.Err? ==> after == entries && r != Err(ServerError)
    ensures UpdateOutcome(e, entries, currentUser, data).0 == Err(EntryNotFound)
            <==> Matching(entries, currentUser, data["website_name"], Some(data["website_url"])) == []
    ensures var m := Matching(entries, currentUser, data["website_name"], Some(data["website_url"]));
            UpdateOutcome(e, entries, currentUser, data).0.Ok?
            <==> m != [] && DecryptPassword(e, entries[m[0]].password) == Some(data["old_password"])
    ensures var (r, after) := UpdateOutcome(e, entries, currentUser, data);
            var m := Matching(entries, currentUser, data["website_name"], Some(data["website_url"]));
            r.Ok? ==> after == entries[m[0] := entries[m[0]].(password := EncryptPassword(e, data["new_password"]))]
  {
    var m := Matching(entries, currentUser, data["website_name"], Some(data["website_url"]));
    AtMostOneMatch(entries, currentUser, data["website_name"], Some(data["website_url"]));
    if m != [] {
      var i := m[0];
      assert i in m;
      assert WellStored(e, urlOk, entries[i]);
      var oldPassword := data["old_password"];
      var p := Unseal(e, entries[i].password);
      assert UpdateOutcome(e, entries, currentUser, data).0.Ok? <==> entries[i].password == EncryptPassword(e, oldPassword);
      assert entries[i].password == EncryptPassword(e, oldPassword) <==> p == oldPassword;
    }
  }

  predicate VaultKeys(data: map<string, string>) {
    "old_password" in data && "new_password" in data && "website_name" in data && "website_url" in data
  }

  lemma UpdatePreservesInvariant(e: Engine, urlOk: string -> bool, entries: seq<PasswordVault>, currentUser: string, data: map<string, string>)
    requires ValidEngine(e) && TableInvariant(e, urlOk, entries)
    ensures TableInvariant(e, urlOk, UpdateOutcome(e, entries, currentUser, data).1)
  {
    var (r, after) := UpdateOutcome(e, entries, currentUser, data);
    if r.Ok? {
      var m := Matching(entries, currentUser, data["website_name"], Some(data["website_url"]));
      var i := m[0];
      var row := entries[i].(password := EncryptPassword(e, data["new_password"]));
      assert WellStored(e, urlOk, row) by {
        assert WellStored(e, urlOk, entries[i]);
        assert Sealed(e, row.password);
      }
      UniqueAfterRepassword(entries, i, row.password);
      StoredAfterReplace(e, urlOk, entries, i, row);
    }
  }

  // ---------------------------------------------------------------------------
  // DeletePassword.get (views.py:127-137)

  /**
   * The response and the new table of a delete request. A failure changes
   * nothing; a success removes one of the user's rows and no other.
   */
  function DeleteOutcome(entries: seq<PasswordVault>, currentUser: string, websiteName: Option<string>)
    : (out: (Result<(), Failure>, seq<PasswordVault>))
    ensures out.0.Err? ==> out.1 == entries
    ensures out.0.Ok? ==> |out.1| == |entries| - 1 && forall r :: r in out.1 ==> r in entries
  {
    if websiteName.None? || websiteName.value == "" then (Err(NameRequired), entries)
    else
      var m := Matching(entries, currentUser, websiteName.value, None);
      if |m| != 1 then (Err(EntryNotFound), entries)
      else (Ok(()), entries[..m[0]] + entries[m[0] + 1..])
  }

  /**
   * A delete without a name is a 404; otherwise it succeeds exactly when the
   * user holds a row for exactly that name (no lowering here), and every
   * failure is a 404 that leaves the table alone.
   */
  lemma DeleteOutcomes(entries: seq<PasswordVault>, currentUser: string, websiteName: Option<string>)
    requires UniqueSites(entries)
    ensures websiteName.None? || websiteName == Some("") ==> DeleteOutcome(entries, currentUser, websiteName).0 == Err(NameRequired)
    ensures DeleteOutcome(entries, currentUser, websiteName).0.Err? ==>
              DeleteOutcome(entries, currentUser, websiteName).1 == entries
              && Status(DeleteOutcome(entries, currentUser, websiteName).0.error) == 404
    ensures DeleteOutcome(entries, currentUser, websiteName).0.Ok?
            <==> websiteName.Some? && websiteName.value != "" && HasSite(entries, currentUser, websiteName.value)
  {
    if websiteName.Some? && websiteName.value != "" {
      OneMatchByName(entries, currentUser, websiteName.value);
    }
  }

  /** On a table with unique sites, a lookup by name alone finds one row exactly when the user holds that name. */
  lemma OneMatchByName(entries: seq<PasswordVault>, user: string, name: string)
    requires UniqueSites(entries)
    ensures |Matching(entries, user, name, None)| == 1 <==> HasSite(entries, user, name)
  {
    var m := Matching(entries, user, name, None);
    AtMostOneMatch(entries, user, name, None);
    if HasSite(entries, user, name) {
      var i :| 0 <= i < |entries| && entries[i].user == user && entries[i].websiteName == name;
      assert IsMatch(entries[i], user, name, None);
      assert i in m;
    } else {
      NoMatchNoRows(entries, user, name, None);
    }
  }

  /** Deleting a name the user holds removes exactly that row, keeps the rest in order, and leaves no row for it. */
  lemma DeleteRemovesRow(entries: seq<PasswordVault>, currentUser: string, name: string, i: nat)
    requires UniqueSites(entries) && i < |entries| && name != ""
    requires entries[i].user == currentUser && entries[i].websiteName == name
    ensures DeleteOutcome(entries, currentUser, Some(name)) == (Ok(()), entries[..i] + entries[i + 1..])
    ensures !HasSite(entries[..i] + entries[i + 1..], currentUser, name)
  {
    var m := Matching(entries, currentUser, name, None);
    AtMostOneMatch(entries, currentUser, name, None);
    assert IsMatch(entries[i], currentUser, name, None);
    assert i in m;
    assert m == [i];
    var after := entries[..i] + entries[i + 1..];
    forall k | 0 <= k < |after| ensures !(after[k].user == currentUser && after[k].websiteName == name) {
      assert after[k] == entries[Skip(k, i)];
    }
  }

  lemma DeletePreservesInvariant(e: Engine, urlOk: string -> bool, entries: seq<PasswordVault>, currentUser: string, websiteName: Option<string>)
    requires ValidEngine(e) && TableInvariant(e, urlOk, entries)
    ensures TableInvariant(e, urlOk, DeleteOutcome(entries, currentUser, websiteName).1)
  {
    var (r, after) := DeleteOutcome(entries, currentUser, websiteName);
    if r.Ok? {
      var i := Matching(entries, currentUser, websiteName.value, None)[0];
      UniqueAfterRemove(entries, i);
      StoredAfterRemove(e, urlOk, entries, i);
    }
  }

  // ---------------------------------------------------------------------------
  // The vault

  class Vault {
    /** The fixed encryption parameters, the hash function and URLValidator's syntax check. */
    const engine: Engine
    const sha1: Sha1
    const urlOk: string -> bool
    var entries: seq<PasswordVault>

    ghost predicate Valid()
      reads this
    {
      ValidEngine(engine) && TableInvariant(engine, urlOk, entries)
    }

    constructor (engine: Engine, sha1: Sha1, urlOk: string -> bool)
      requires ValidEngine(engine)
      ensures Valid() && entries == []
      ensures this.engine == engine && this.sha1 == sha1 && this.urlOk == urlOk
    {
      this.engine := engine;
      this.sha1 := sha1;
      this.urlOk := urlOk;
      entries := [];
    }

    /** `AddPassword.post`; `draw` is the random source, `now` the clock. */
    method Add(index: BreachIndex, draw: nat -> nat, currentUser: string, data: map<string, string>,
               autogenerate: Option<string>, now: int) returns (r: Result<(), Failure>)
      requires Valid() && Username(currentUser)
      modifies this, index
      ensures Valid()
      ensures r == AddOutcome(engine, BreachVerdict(sha1, index.ranges), urlOk, draw, old(entries), currentUser, data, autogenerate, now).0
      ensures entries == AddOutcome(engine, BreachVerdict(sha1, index.ranges), urlOk, draw, old(entries), currentUser, data, autogenerate, now).1
      ensures old(index.sent) <= index.sent && |index.sent| <= |old(index.sent)| + 1
    {
      ghost var breached := BreachVerdict(sha1, index.ranges);
      ghost var outcome := AddOutcome(engine, breached, urlOk, draw, entries, currentUser, data, autogenerate, now);
      if "website_name" !in data {
        return Err(ServerError);
      }
      var d := data["user" := currentUser]["website_name" := Lower(data["website_name"])];
      if HasSite(entries, currentUser, Strip(d["website_name"])) {
        assert DuplicateGuard(entries, currentUser, data["website_name"]);
        return Err(DuplicateEntry);
      }
      assert !DuplicateGuard(entries, currentUser, data["website_name"]);
      ghost var lowered := d;
      if Autogenerates(autogenerate) {
        var generated := GeneratePassword(draw);
        d := d["password" := generated];
      }
      PreparedSteps(data, currentUser, autogenerate, draw, lowered, d);
      var validated := ValidateVaultData(d, urlOk);
      if validated.None? {
        return Err(InvalidData);
      }
      assert outcome == Commit(engine, breached, entries, validated.value, now);
      ValidatedSaveable(urlOk, draw, entries, currentUser, data, autogenerate);
      r := Save(index, validated.value, now);
    }

    /** The last steps of `AddPassword.post` on validated data: the strength gate and breach lookup, then the save. */
    method Save(index: BreachIndex, v: map<string, string>, now: int) returns (r: Result<(), Failure>)
      requires Valid() && VaultFields <= v.Keys && Saveable(urlOk, entries, v)
      modifies this, index
      ensures Valid()
      ensures (r, entries) == Commit(engine, BreachVerdict(sha1, index.ranges), old(entries), v, now)
      ensures old(index.sent) <= index.sent && |index.sent| <= |old(index.sent)| + 1
    {
      CommitPreservesInvariant(engine, BreachVerdict(sha1, index.ranges), urlOk, entries, v, now);
      var resultant := CheckPasswordStrength(engine, sha1, index, v);
      CommitOutcome(engine, BreachVerdict(sha1, index.ranges), entries, v, now, resultant);
      if resultant.Err? {
        return Err(Rejected(resultant.error));
      }
      entries := entries + [Saved(resultant.value, now)];
      r := Ok(());
    }

    /** `ViewAllPassword.get`: the user's rows, with each password decrypted in turn. */
    method ViewAll(currentUser: string) returns (rows: seq<PasswordVault>)
      requires Valid()
      ensures AllDecrypt(engine, Owned(entries, currentUser))
      ensures rows == Revealed(engine, Owned(entries, currentUser))
    {
      OwnedDecrypt(engine, urlOk, entries, currentUser);
      rows := RevealAll(engine, Owned(entries, currentUser));
    }

    /** `UpdatePassword.post`. */
    method Update(currentUser: string, data: map<string, string>) returns (r: Result<(), Failure>)
      requires Valid()
      modifies this
      ensures Valid()
      ensures (r, entries) == UpdateOutcome(engine, old(entries), currentUser, data)
    {
      UpdatePreservesInvariant(engine, urlOk, entries, currentUser, data);
      if "old_password" !in data || "new_password" !in data {
        return Err(PasswordKeysRequired);
      }
      var encryptedOld := EncryptPassword(engine, data["old_password"]);
      if "website_name" !in data || "website_url" !in data {
        return Err(ServerError);
      }
      var m := Matching(entries, currentUser, data["website_name"], Some(data["website_url"]));
      if |m| == 0 {
        return Err(EntryNotFound);
      } else if |m| > 1 {
        return Err(ServerError);
      }
      var i := m[0];
      if entries[i].password != encryptedOld {
        return Err(OldPasswordMismatch);
      }
      var encryptedNew := EncryptPassword(engine, data["new_password"]);
      entries := entries[i := entries[i].(password := encryptedNew)];
      r := Ok(());
    }

    /** `DeletePassword.get`. */
    method Delete(currentUser: string, websiteName: Option<string>) returns (r: Result<(), Failure>)
      requires Valid()
      modifies this
      ensures Valid()
      ensures (r, entries) == DeleteOutcome(old(entries), currentUser, websiteName)
    {
      DeletePreservesInvariant(engine, urlOk, entries, currentUser, websiteName);
      if websiteName.None? || websiteName.value == "" {
        return Err(NameRequired);
      }
      var m := Matching(entries, currentUser, websiteName.value, None);
      if |m| != 1 {
        return Err(EntryNotFound);
      }
      entries := entries[..m[0]] + entries[m[0] + 1..];
      r := Ok(());
    }
  }
}
