# Password manager core, modelled in Dafny

This project models the credential core of a Django password manager:

- the helpers of `password_manager/utility.py`:
  - the strength branch and the Pwned Passwords range lookup behind `check_password_strength`;
  - the 12-character generator;
  - AES-CTR encryption of stored passwords;
- the four vault views of `password_app/views.py` (add, view all, update, delete), as a class over a sequence of rows;
- the `PasswordVault` record of `password_app/models.py`, with its field bounds and its `__str__`;
- `RegisterSerializer.save` of `user_app/serializers.py`, as a class over the user table.

Modules, one per file:

| file | module | what it holds |
|---|---|---|
| `common.dfy` | `Common` | `Option`, `Result` and the byte type |
| `text.dfy` | `Text` | ASCII `lower()`, `strip()` and `splitlines()` |
| `utf8.dfy` | `Utf8` | UTF-8 encoding and strict decoding, with a round trip |
| `base64.dfy` | `Base64` | standard Base64 as in section 4 of RFC 4648, with a round trip |
| `ctr.dfy` | `Ctr` | CTR mode as in section 6.5 of NIST SP 800-38A, with PyCryptodome's counter block (nonce, then a big-endian counter) |
| `utility.dfy` | `Utility` | encryption, the strength branch, the breach lookup, the gate, the generator |
| `models.dfy` | `Models` | the record, its bound checks as the REST serializer applies them, `__str__` |
| `views.dfy` | `Views` | the four views: outcome functions, their lemmas, and the class `Vault` |
| `accounts.dfy` | `Accounts` | registration: the outcome function, its lemmas, and the class `UserTable` |

Each view is written twice:

- an outcome function gives the reply and the table afterwards (`AddOutcome`, `UpdateOutcome`, `DeleteOutcome`, `RegisterOutcome`);
- a method of `Vault` or `UserTable` performs the steps in the source's order on its `entries` or `accounts` field, and its `ensures` ties the reply and the new state to that function.

There is one exception to the source's steps: `AddOutcome` and `Vault.Add` apply the corrected duplicate test (see "Findings"). The add exactly as written is `AddOutcomeAsWritten`.

The lemmas about the outcome functions state what the views promise.

The table invariant `TableInvariant` has two parts:

- no user holds two rows for one website name;
- every row has the user, website-name and url bounds, a lower-case website name and a password that is the encryption of some plaintext.

The corrected add, the update and the delete preserve it; the add as written does not (see "Findings"). `Vault.Valid()` carries it from call to call.

### Where the code departs from what its own messages and comments describe

The model follows the code in each case.

- **Strength rule.** The error message at utility.py:28 lists the policy: at least 8 characters, both letter cases, a digit and a symbol. The condition at utility.py:27 applies `not` to the length test alone. So it rejects only short passwords that have all four character classes (`StrengthBranchReading`, `WeakPasswordGetsPast`).
- **Nonce.** The comment at utility.py:77 speaks of storing "the encrypted password and nonce", but only the ciphertext is stored. One key and one nonce serve every record (utility.py:15-16). Encryption is therefore deterministic, and the XOR of two ciphertexts is the XOR of their plaintexts (`FixedNonceLeaksXor`).
- **Update.** The view compares ciphertexts rather than plaintexts (views.py:97-100). It stores the new password without the strength and breach checks that the add view applies (views.py:103-105). On a well-formed table the ciphertext comparison agrees with a plaintext comparison (`UpdateSemantics`).
- **Generator.** The add view's docstring (views.py:20) and the message at utility.py:28 present the generated password as a secure one. The generator's fourth alphabet is `string.punctuation`, which is wider than the symbol class at utility.py:27. A generated password passes the branch only because it is 12 characters long (`GeneratedPassesStrengthBranch`), and it may contain no listed symbol (`GeneratedMayLackListedSymbol`).
- **Breach lookup.** A reply other than 200 counts as "not breached" (`FailedLookupIsNotBreached`). The suffix match is case-sensitive.

## Model

| member | source | states |
|---|---|---|
| Utility.EncryptPassword | password_manager/utility.py:75-78 | the stored string is the Base64 length of the UTF-8 bytes: 4 characters per started 3-byte group |
| Utility.DecryptEncrypt | password_manager/utility.py:75-89 | decrypting the encryption of any password gives that password back |
| Utility.EncryptInjective | password_manager/utility.py:68-78 | with the fixed key and nonce, two passwords encrypt alike exactly when they are equal |
| Utility.FixedNonceLeaksXor | password_manager/utility.py:15-16 | for two passwords, byte i of the XOR of the stored ciphertexts is byte i of the XOR of the plaintexts |
| Utility.DecryptPassword | password_manager/utility.py:80-90 | a stored string that is not Base64 yields no password; a decrypted password has no more characters than the ciphertext has bytes |
| Utility.StrengthBranchRejects | password_manager/utility.py:27 | only a password of 4 to 7 characters can be rejected |
| Utility.StrengthBranchReading | password_manager/utility.py:26-29 | the branch rejects exactly when the length is under 8 and all four classes occur; every password of 8 or more characters, and every password meeting the stated policy, passes it |
| Utility.WeakPasswordGetsPast | password_manager/utility.py:27 | "abc" fails every criterion of the stated policy yet passes the branch |
| Utility.ShortCompletePasswordRejected | password_manager/utility.py:27-29 | "Ab1!" is rejected: short, with all four classes |
| Utility.DigestHex | password_manager/utility.py:46 | the upper-case hex digest has 40 characters |
| Utility.DigestSplit | password_manager/utility.py:47 | prefix and suffix rebuild the digest; they have 5 and 35 characters |
| Utility.FailedLookupIsNotBreached | password_manager/utility.py:49-55 | a reply whose status is not 200 never reports a breach |
| Utility.ListedInServiceFormat | password_manager/utility.py:49-52 | on a CRLF-terminated reply, a breach is reported exactly when one of its lines starts with the suffix |
| Utility.BreachIndex.Get | password_manager/utility.py:48 | the reply is the service's answer for the prefix, and the prefix is appended to the request log |
| Utility.AnyLineStartsWith | password_manager/utility.py:50-52 | the scan returns true exactly when some line starts with the suffix |
| Utility.PwnedPassword | password_manager/utility.py:39-55 | the result is the lookup verdict for the password; exactly one request is made, carrying only the 5-character prefix of the digest |
| Utility.Gate | password_manager/utility.py:18-37 | on success the returned dictionary has the same keys as the input |
| Utility.GateOutcomes | password_manager/utility.py:26-37 | WeakPassword exactly when the strength branch rejects; BreachedPassword exactly when that branch passes and the lookup reports a breach; on success only the password changes, to its encryption, which decrypts back to it |
| Utility.CheckPasswordStrength | password_manager/utility.py:18-37 | the result is the gate's verdict under the lookup; no request is made when the strength branch rejects, otherwise exactly the digest prefix is sent |
| Utility.GeneratePassword | password_manager/utility.py:57-66 | the loop builds the password determined by the random draws |
| Utility.GeneratedShape | password_manager/utility.py:61-66 | a generated password has 12 characters; character i comes from alphabet i mod 4; each class occurs exactly 3 times |
| Utility.PunctuationIsPythons | password_manager/utility.py:61 | the fourth alphabet is exactly Python's `string.punctuation` |
| Utility.GeneratedPassesStrengthBranch | password_manager/utility.py:63 | every generated password passes the strength branch |
| Utility.GeneratedMayLackListedSymbol | password_manager/utility.py:61 | some generated password contains no symbol of the class at utility.py:27 |
| Utility.GeneratedIsStripped | password_manager/utility.py:61-66 | stripping leaves a generated password unchanged: it starts with a letter and ends with punctuation |
| Ctr.CryptInvolutive | password_manager/utility.py:88-89 | CTR decryption with the same key and nonce undoes encryption |
| Ctr.NonceReuseLeaksXor | password_manager/utility.py:15-16 | under one key and nonce, the XOR of two ciphertexts equals the XOR of the plaintexts |
| Base64.DecodeEncode | password_manager/utility.py:87 | `b64decode` undoes `b64encode` on every byte string |
| Base64.EncodeInjective | password_manager/utility.py:77 | distinct byte strings have distinct Base64 encodings |
| Utf8.DecodeEncode | password_manager/utility.py:89 | UTF-8 decoding undoes encoding on every string |
| Utf8.EncodeInjective | password_manager/utility.py:76 | distinct strings have distinct UTF-8 encodings |
| Text.Lower | password_app/views.py:33 | the result has the input's length and no upper-case letter; each upper-case letter becomes the character 32 code points above it, and every other character is unchanged |
| Text.LowerIsLowered | password_app/views.py:33 | a lowered name has no upper-case letter, and lowering again changes nothing |
| Text.Strip | password_app/models.py:10-13 | the result is no longer than the input and neither of its ends is whitespace |
| Text.StripSlice | password_app/models.py:10-13 | the result is a contiguous slice of the input, and everything before and after that slice is whitespace |
| Text.SplitLines | password_manager/utility.py:50 | no line contains a line break |
| Models.ValidatedIsFixed | password_app/models.py:10-13 | validated data has exactly the four fields, and validating it again succeeds and returns it unchanged |
| Models.ValidatedWithinBounds | password_app/models.py:10-13 | validated values are non-empty and at most 40, 30, 200 and 100 characters long |
| Models.Describe | password_app/models.py:16-17 | the description starts with the user's name and ends with the website name, with 13 characters between them |
| Models.DescribeDistinguishesSites | password_app/models.py:16-17 | two rows of one user are described alike exactly when they are for the same website name |
| Views.Matching | password_app/views.py:99 | the indices returned are exactly the rows matching the lookup, in increasing order |
| Views.AtMostOneMatch | password_app/views.py:99 | on a table with unique sites, at most one row matches a lookup |
| Views.NoMatchNoRows | password_app/views.py:109-110 | when no row matches, the lookup finds nothing |
| Views.Unseal | password_app/views.py:100 | a sealed password is the encryption of exactly one plaintext, and decrypts to it |
| Views.AddSuccessShape | password_app/views.py:28-50 | a successful add passed the strength branch and the lookup, and appended exactly one row: the user, the lowered and stripped name, the stripped url, and the encryption of the generated or supplied password |
| Views.AddRejectsDuplicate | password_app/views.py:35-36 | an add whose lowered name the user already holds fails with DuplicateEntry and saves nothing |
| Views.GuardCoversAsWritten | password_app/views.py:35 | on a well-formed table, the corrected duplicate test rejects everything the test as written rejects |
| Views.AddOutcome | password_app/views.py:28-53 | the add with the corrected duplicate test: a failure saves nothing; a success appends one row and keeps the others in place |
| Views.AddOutcomeAsWritten | password_app/views.py:28-53 | the add with the duplicate test exactly as at views.py:35; a failure saves nothing; a success appends one row and keeps the others in place |
| Views.AsWrittenAddSavesDuplicate | password_app/views.py:33-50 | on a well-formed table where the user holds a name, a request for that name behind one space, with acceptable fields and a password that passes the gate, succeeds as written and leaves the user two rows for the name; the corrected add refuses it and saves nothing |
| Views.AsWrittenAddSavesSecondGithub | password_app/views.py:33-50 | alice holds "github"; her request for " github" with the password "correcthorse" succeeds as written and breaks name uniqueness, and the corrected add refuses it |
| Views.SpacedName | password_app/views.py:33 | a lowered, stripped, non-empty name behind one space is unchanged by `lower()` and is saved as the name itself |
| Views.SpacedNameAbsent | password_app/views.py:35 | no row of a well-formed table has a name beginning with a space, so the test as written never finds one |
| Views.CommitPreservesInvariant | password_app/views.py:45-50 | saving data with acceptable fields, a lowered name and no row of the user for that name keeps the table invariant, whatever the gate decides |
| Views.ValidatedSaveable | password_app/views.py:35-44 | data that passed the corrected duplicate test and the serializer has acceptable fields, a lowered name, and no row of the user for that name |
| Views.NewRowWellStored | password_app/views.py:44-50 | a row built from validated fields and an encryption keeps the table invariant's per-row part |
| Views.AddPreservesInvariant | password_app/views.py:33-50 | every corrected add keeps the table invariant: unique names per user, lower-case names, bounds, sealed passwords |
| Views.OwnedDecrypt | password_app/views.py:70-72 | on a well-formed table, every password of the user's rows decrypts |
| Views.FilterDecrypts | password_app/views.py:70 | filtering by user keeps rows whose passwords decrypt |
| Views.Owned | password_app/views.py:70 | the user's rows are exactly the rows whose user is the current one |
| Views.OwnedCounts | password_app/views.py:70 | each row of the user occurs in the result as often as in the table, and no other row occurs |
| Views.OwnedAppend | password_app/views.py:70 | filtering a concatenation concatenates the filtered parts, so the table's order is kept |
| Views.RevealedAppend | password_app/views.py:71-72 | revealing one more row appends that row, decrypted |
| Views.RevealAll | password_app/views.py:71-72 | the loop rewrites each row's password to its decryption, in order |
| Views.RevealAfterAppend | password_app/views.py:70-73 | after a row for plaintext p is appended, the user's view grows by one row, showing p |
| Views.AddedPasswordIsShown | password_app/views.py:70-73 | after a successful add the user's view has one more row, whose password is the plaintext that was added |
| Views.UpdateSemantics | password_app/views.py:95-110 | with all four keys present: a failure changes nothing; EntryNotFound exactly when nothing matches; success exactly when a row matches and its password decrypts to the old password; then only that row's password changes, to the encryption of the new one |
| Views.UpdateOutcome | password_app/views.py:91-110 | a failure changes nothing; any outcome keeps the table's length and changes nothing but passwords |
| Views.UpdateFailureKeepsTable | password_app/views.py:95-99 | a missing old or new password is a 400 and a missing name or url a 500, both changing nothing |
| Views.CreatedAtSetOnce | password_app/models.py:14 | an add stamps only its new row, with the current time; an update keeps every row's creation time |
| Views.UpdatePreservesInvariant | password_app/views.py:97-105 | every update keeps the table invariant |
| Views.DeleteOutcome | password_app/views.py:127-137 | a failure changes nothing; a success removes one row and adds none |
| Views.OneMatchByName | password_app/views.py:133 | on a table with unique sites, a lookup by name finds exactly one row exactly when the user holds that name |
| Views.DeleteOutcomes | password_app/views.py:130-137 | no name is a 404; every failure is a 404 that changes nothing; success exactly when the user holds a row for exactly that name |
| Views.DeleteRemovesRow | password_app/views.py:133-134 | deleting a name the user holds removes exactly that row, keeps the others in order, and leaves no row for it |
| Views.DeletePreservesInvariant | password_app/views.py:133-134 | every delete keeps the table invariant |
| Views.Vault.Add | password_app/views.py:28-53 | the reply and the new table are those of the add outcome; the invariant holds; at most one request goes to the breach service |
| Views.Vault.Save | password_app/views.py:44-50 | given data with acceptable fields, a lowered name and no row of the user for that name: the gate then the save, as the commit step of the add outcome, keeping the table invariant; at most one request goes to the breach service |
| Views.Vault.ViewAll | password_app/views.py:68-73 | the reply is the current user's rows with their passwords decrypted |
| Views.Vault.Update | password_app/views.py:91-110 | the reply and the new table are those of the update outcome; the invariant holds |
| Views.Vault.Delete | password_app/views.py:127-137 | the reply and the new table are those of the delete outcome; the invariant holds |
| Accounts.RegisterOutcome | user_app/serializers.py:13-34 | a failure adds no account; a success appends exactly the account it returns |
| Accounts.CompleteFailuresAre400 | user_app/serializers.py:16-33 | with every key present, every failure is a validation error and answered with a 400 |
| Accounts.FirstMissing | user_app/serializers.py:23-26 | nothing is reported exactly when all keys are present, and what is reported is a missing key |
| Accounts.MismatchReportedFirst | user_app/serializers.py:16-20 | a confirmation mismatch is reported whatever the table holds, even when the email is taken |
| Accounts.TakenEmailRefused | user_app/serializers.py:19-20 | with a matching confirmation, a registered email is refused and nothing is added |
| Accounts.RegisterSuccess | user_app/serializers.py:22-31 | with every key present, success comes exactly when the passwords match, the email is new and the username is free; exactly one account is added, holding the four fields and the hashed password |
| Accounts.SuccessNeedsEveryKey | user_app/serializers.py:14-26 | a missing key means failure, and a reported missing key is absent |
| Accounts.ConfirmationNotStored | user_app/serializers.py:22-29 | requests differing only in the confirmed password succeed alike and store rows that differ only in the hash |
| Accounts.RegisterPreservesUniqueness | user_app/serializers.py:19-31 | registration keeps usernames and emails unique |
| Accounts.UserTable.Register | user_app/serializers.py:13-34 | the reply and the new table are those of the registration outcome; usernames and emails stay unique |

## Left out

- Request and response objects, URL routing, authentication and the JWT views: replies are modelled as `Result` values with a status code.
- The mails sent by `send_password_add_mail.delay` and `send_password_update_mail.delay`, and the user lookups that fetch the email for them (views.py:34, 94, 51, 107): they are fire-and-forget I/O.
- The `print` of a failed lookup at utility.py:54: logging only.
- `weekly_report` and the scheduling around it.
- Concurrency: each view runs alone, as one atomic step.
- ENCRYPTION_KEY and ENCRYPTION_NONCE (utility.py:15-16) are assumed to be sizes that `AES.new` accepts (a key of 16, 24 or 32 bytes, a nonce shorter than 16 bytes; `ValidEngine`); with any other sizes every encryption and decryption raises, and that failure is not modelled.
- The AES block cipher, SHA-1, `random.choice` and `set_password` hashing are parameters: the cipher is a function in the `Engine` record, SHA-1 is the vault's `sha1`, the random source is `draw`, and the hash is `hash`.
- The Pwned Passwords service is the `ranges` function of a `BreachIndex`; network errors and exceptions from `requests` are not modelled.
- The clock is the `now` parameter; `created_at` is whatever it is given.
- URLValidator's syntax check is the predicate `urlOk`.
- `lower()` is modelled on the ASCII letters only; the case mapping of other letters is not modelled. `strip()` uses Python's whitespace set in full.
- `b64decode` is modelled as strict on its alphabet and padding; the leniency of `binascii` with characters outside the alphabet is not modelled, so such strings decode to None.
- Ctr.Crypt: the counter part of the block wraps around in the model, where PyCryptodome raises an error. With a nonce of 15 bytes the wrap comes after 4096 bytes of plaintext; only an update's old or new password, which no bound limits, could reach it (views.py:97 and 103 encrypt both).
- The stored ciphertext's length is not checked against the password field's max_length of 100: neither view checks it after encryption, and the database's own length check is not part of this model.
- Views.Username: the username validator of Django is reduced to "has no surrounding whitespace", the one fact the add view relies on.
- Views.AddOutcome: applies the corrected duplicate test (the name as it will be saved, lowered and stripped), not the one at views.py:35; the add exactly as written is `AddOutcomeAsWritten`.
- Views.Vault.Add: the class applies the corrected duplicate test (the name as it will be saved, lowered and stripped); the add exactly as written is the function `AddOutcomeAsWritten`, and `AsWrittenAddSavesDuplicate` shows where the two differ.
- Views.Vault.Add: the breach verdict is that of the service's fixed answers; a service whose answers change between calls is not modelled.
- Accounts.RegisterOutcome: `account.save()` fails exactly when the username is taken. Other database errors are not modelled; the REST framework's own `UniqueValidator` runs before `save` and is not part of this model.
- DRF's validation of the registration fields (email syntax, username characters, field lengths) happens before `save` and is not modelled; `save` receives `validated_data` as given.

## Findings

| source | as written | input that shows it | evidently intended | confidence | as-written member | corrected member |
|---|---|---|---|---|---|---|
| password_app/views.py:33-35 | the duplicate test looks for the lowered name, but the serializer then strips it before saving | a row for "github" exists and the user adds " github": the test finds nothing and the row is saved as "github" a second time; later `get` lookups for it raise MultipleObjectsReturned | test for the name that will be saved, lowered and stripped, so that no user holds two rows for one name | not executed | Views.AsWrittenAddSavesDuplicate | Views.AddPreservesInvariant |

`AddOutcomeAsWritten` models the add exactly as written. `AsWrittenAddSavesDuplicate`, and its instance `AsWrittenAddSavesSecondGithub`, show it saving the duplicate. The rest of the model, `AddOutcome` and `Vault.Add`, uses the corrected test `DuplicateGuard`. `GuardCoversAsWritten` shows that the corrected test still rejects everything the test as written rejects.
