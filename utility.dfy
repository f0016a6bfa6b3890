/**
 * Model of password_manager/utility.py: the strength gate, the Pwned
 * Passwords range lookup, the password generator and AES-CTR encryption of
 * stored passwords under one fixed key and nonce.
 */
module Utility {
  import opened Common
  import opened Text
  import Ctr
  import Utf8
  import Base64

  // ---------------------------------------------------------------------------
  // Encryption (utility.py:15-16, 68-90)

  /**
   * The process-wide encryption parameters read from the environment at import
   * time (ENCRYPTION_KEY, ENCRYPTION_NONCE), with the AES forward function.
   * They never change, so every encryption uses the same keystream.
   */
  datatype Engine = Engine(key: seq<byte>, nonce: seq<byte>, aes: Ctr.BlockCipher)

  /** What `AES.new(key, AES.MODE_CTR, nonce=nonce)` accepts: an AES key size and a nonce shorter than a block. */
  predicate ValidEngine(e: Engine) {
    (|e.key| == 16 || |e.key| == 24 || |e.key| == 32) && |e.nonce| < 16
  }

  /** `encrypt_password`: UTF-8, then AES-CTR under the fixed key and nonce, then Base64. */
  function EncryptPassword(e: Engine, password: string): (r: string)
    requires ValidEngine(e)
    ensures |r| == 4 * ((|Utf8.Encode(password)| + 2) / 3)
  {
    Base64.Encode(Ctr.Crypt(e.aes, e.key, e.nonce, Utf8.Encode(password)))
  }

  /**
   * `decrypt_password`: None where Python raises (bad Base64, bytes that are
   * not UTF-8). A stored string that is not Base64 never decrypts, and a
   * password read back has no more characters than the ciphertext has bytes.
   */
  function DecryptPassword(e: Engine, stored: string): (r: Option<string>)
    requires ValidEngine(e)
    ensures Base64.Decode(stored).None? ==> r.None?
    ensures r.Some? ==> |r.value| <= |Base64.Decode(stored).value|
  {
    match Base64.Decode(stored)
    case None => None
    case Some(ct) => Utf8.Decode(Ctr.Crypt(e.aes, e.key, e.nonce, ct))
  }

  /** Decryption undoes encryption for every password. */
  lemma DecryptEncrypt(e: Engine, password: string)
    requires ValidEngine(e)
    ensures DecryptPassword(e, EncryptPassword(e, password)) == Some(password)
  {
    var pt := Utf8.Encode(password);
    var ct := Ctr.Crypt(e.aes, e.key, e.nonce, pt);
    Base64.DecodeEncode(ct);
    Ctr.CryptInvolutive(e.aes, e.key, e.nonce, pt);
    Utf8.DecodeEncode(password);
  }

  /**
   * With the key and nonce fixed, equal ciphertexts mean equal passwords and
   * equal passwords give equal ciphertexts: comparing ciphertexts compares plaintexts.
   */
  lemma EncryptInjective(e: Engine, p: string, q: string)
    requires ValidEngine(e)
    ensures EncryptPassword(e, p) == EncryptPassword(e, q) <==> p == q
  {
    if EncryptPassword(e, p) == EncryptPassword(e, q) {
      DecryptEncrypt(e, p);
      DecryptEncrypt(e, q);
    }
  }

  /**
   * The price of the fixed nonce: at every byte position both passwords'
   * encodings reach, the XOR of their stored ciphertext bytes is the XOR of
   * the plaintext bytes.
   */
  lemma FixedNonceLeaksXor(e: Engine, p: string, q: string, i: nat)
    requires ValidEngine(e)
    requires i < |Utf8.Encode(p)| && i < |Utf8.Encode(q)|
    ensures var cp := Base64.Decode(EncryptPassword(e, p));
            var cq := Base64.Decode(EncryptPassword(e, q));
            cp.Some? && cq.Some? && i < |cp.value| && i < |cq.value| &&
            Ctr.Xor(cp.value[i], cq.value[i]) == Ctr.Xor(Utf8.Encode(p)[i], Utf8.Encode(q)[i])
  {
    var pp, qq := Utf8.Encode(p), Utf8.Encode(q);
    Base64.DecodeEncode(Ctr.Crypt(e.aes, e.key, e.nonce, pp));
    Base64.DecodeEncode(Ctr.Crypt(e.aes, e.key, e.nonce, qq));
    Ctr.NonceReuseLeaksXor(e.aes, e.key, e.nonce, pp, qq, i);
  }

  // ---------------------------------------------------------------------------
  // Strength branch (utility.py:26-29)

  /** The symbols of the character class at utility.py:27. */
  const ListedSymbols: set<char> :=
    {'~', '`', '!', '@', '#', '$', '%', '^', '&', '*', '(', ')', '_', '-', '+', '=',
     '[', ']', '{', '}', ':', ';', '.', '?'}

  predicate HasUpper(p: string) { exists i :: 0 <= i < |p| && IsAsciiUpper(p[i]) }
  predicate HasLower(p: string) { exists i :: 0 <= i < |p| && IsAsciiLower(p[i]) }
  predicate HasDigit(p: string) { exists i :: 0 <= i < |p| && IsAsciiDigit(p[i]) }
  predicate HasListedSymbol(p: string) { exists i :: 0 <= i < |p| && p[i] in ListedSymbols }

  /**
   * The condition of the `if` at utility.py:27 as Python parses it: `not`
   * applies to the length test alone, and the `and`s join it to the four
   * class searches. Four classes need four distinct characters, so only
   * passwords of 4 to 7 characters are rejected.
   */
  function StrengthBranchRejects(p: string): (r: bool)
    ensures r ==> 4 <= |p| < 8
  {
    !(|p| >= 8) && HasUpper(p) && HasLower(p) && HasDigit(p) && HasListedSymbol(p)
  }

  /** The policy the error message at utility.py:28 describes. */
  predicate MeetsStatedPolicy(p: string) {
    |p| >= 8 && HasUpper(p) && HasLower(p) && HasDigit(p) && HasListedSymbol(p)
  }

  /** The branch rejects only short passwords that have all four classes; every password of 8 or more characters gets past it. */
  lemma StrengthBranchReading(p: string)
    ensures StrengthBranchRejects(p) <==> |p| < 8 && HasUpper(p) && HasLower(p) && HasDigit(p) && HasListedSymbol(p)
    ensures |p| >= 8 ==> !StrengthBranchRejects(p)
    ensures MeetsStatedPolicy(p) ==> !StrengthBranchRejects(p)
  {
  }

  /** A password that fails every criterion of the stated policy still gets past the branch. */
  lemma WeakPasswordGetsPast()
    ensures !MeetsStatedPolicy("abc") && !StrengthBranchRejects("abc")
  {
    assert !IsAsciiDigit("abc"[0]) && !IsAsciiDigit("abc"[1]) && !IsAsciiDigit("abc"[2]);
  }

  /** A short password that has all four classes is the kind the branch does stop. */
  lemma ShortCompletePasswordRejected()
    ensures StrengthBranchRejects("Ab1!")
  {
    assert IsAsciiUpper("Ab1!"[0]) && IsAsciiLower("Ab1!"[1]) && IsAsciiDigit("Ab1!"[2]);
    assert "Ab1!"[3] in ListedSymbols;
  }

  // ---------------------------------------------------------------------------
  // Breach lookup (utility.py:39-55)

  type Digest = s: seq<byte> | |s| == 20 witness seq(20, _ => 0)

  /** SHA-1 (FIPS 180-4) over bytes, kept abstract. */
  type Sha1 = seq<byte> -> Digest

  function HexDigit(v: int): (c: char)
    requires 0 <= v < 16
    ensures IsAsciiDigit(c) || ('A' <= c <= 'F')
  {
    if v < 10 then ('0' as int + v) as char else ('A' as int + v - 10) as char
  }

  /** `digest.hexdigest().upper()`. */
  function HexUpper(d: seq<byte>): (h: string)
    ensures |h| == 2 * |d|
    ensures forall i :: 0 <= i < |h| ==> IsAsciiDigit(h[i]) || ('A' <= h[i] <= 'F')
  {
    if d == [] then [] else [HexDigit(d[0] / 16), HexDigit(d[0] % 16)] + HexUpper(d[1..])
  }

  /** The 40 upper-case hex digits of the SHA-1 of the password's UTF-8 bytes (utility.py:46). */
  function DigestHex(sha1: Sha1, password: string): (h: string)
    ensures |h| == 40
  {
    HexUpper(sha1(Utf8.Encode(password)))
  }

  /** The part sent to the service, and the part looked for in its answer (utility.py:47). */
  function Prefix(hex: string): string requires |hex| == 40 { hex[..5] }
  function Suffix(hex: string): string requires |hex| == 40 { hex[5..] }

  lemma DigestSplit(hex: string)
    requires |hex| == 40
    ensures Prefix(hex) + Suffix(hex) == hex
    ensures |Prefix(hex)| == 5 && |Suffix(hex)| == 35
  {
  }

  /** What `requests.get` hands back: the status code and the decoded body. */
  datatype Reply = Reply(status: int, text: string)

  /** Some line of a successful answer starts with `suffix` (case-sensitive `startswith`). */
  predicate Listed(reply: Reply, suffix: string) {
    var lines := SplitLines(reply.text);
    reply.status == 200 && exists i :: 0 <= i < |lines| && StartsWith(lines[i], suffix)
  }

  /** The value `pwned_password` returns when the service answers `ranges(prefix)`. */
  predicate Breached(sha1: Sha1, ranges: string -> Reply, password: string) {
    var hex := DigestHex(sha1, password);
    Listed(ranges(Prefix(hex)), Suffix(hex))
  }

  /** A status other than 200 reads as "not breached" (the error is only printed). */
  lemma FailedLookupIsNotBreached(reply: Reply, suffix: string)
    requires reply.status != 200
    ensures !Listed(reply, suffix)
  {
  }

  /**
   * On an answer in the service's format (CRLF-terminated lines), a suffix is
   * found exactly when one of the listed lines, e.g. `SUFFIX:COUNT`, starts with it.
   */
  lemma ListedInServiceFormat(lines: seq<string>, suffix: string)
    requires forall j :: 0 <= j < |lines| ==> HasNoBreak(lines[j])
    ensures Listed(Reply(200, Terminated(lines)), suffix)
            <==> exists j :: 0 <= j < |lines| && StartsWith(lines[j], suffix)
  {
    var text := Terminated(lines);
    SplitTerminated(lines, "");
    assert text + "" == text;
    assert SplitLines(text) == lines;
  }

  /**
   * The Pwned Passwords range service. `ranges` is its answer for each prefix;
   * `sent` records the prefixes this process has asked for.
   */
  class BreachIndex {
    const ranges: string -> Reply
    var sent: seq<string>

    constructor (ranges: string -> Reply)
      ensures this.ranges == ranges && sent == []
    {
      this.ranges := ranges;
      sent := [];
    }

    /** `requests.get(f'https://api.pwnedpasswords.com/range/{prefix}')`. */
    method Get(prefix: string) returns (reply: Reply)
      modifies this
      ensures reply == ranges(prefix)
      ensures sent == old(sent) + [prefix]
    {
      reply := ranges(prefix);
      sent := sent + [prefix];
    }
  }

  /** The loop at utility.py:50-52: true as soon as a line starts with `suffix`. */
  method AnyLineStartsWith(lines: seq<string>, suffix: string) returns (found: bool)
    ensures found <==> exists i :: 0 <= i < |lines| && StartsWith(lines[i], suffix)
  {
    for k := 0 to |lines|
      invariant forall i :: 0 <= i < k ==> !StartsWith(lines[i], suffix)
    {
      if StartsWith(lines[k], suffix) {
        return true;
      }
    }
    return false;
  }

  /**
   * `pwned_password`: hashes the password, sends only the 5-character prefix
   * of the hex digest and looks for the 35-character suffix in the answer.
   */
  method PwnedPassword(sha1: Sha1, index: BreachIndex, password: string) returns (breached: bool)
    modifies index
    ensures breached == Breached(sha1, index.ranges, password)
    ensures index.sent == old(index.sent) + [Prefix(DigestHex(sha1, password))]
  {
    var hex := DigestHex(sha1, password);
    var prefix, suffix := hex[..5], hex[5..];
    var reply := index.Get(prefix);
    breached := false;
    if reply.status == 200 {
      breached := AnyLineStartsWith(SplitLines(reply.text), suffix);
    }
  }

  // ---------------------------------------------------------------------------
  // The gate (utility.py:18-37)

  datatype Rejection = WeakPassword | BreachedPassword

  /** The lookup's verdict on every password, given the service's answers. */
  function BreachVerdict(sha1: Sha1, ranges: string -> Reply): string -> bool {
    p => Breached(sha1, ranges, p)
  }

  /** What `check_password_strength` returns for `rawData`, given the lookup's verdict `breached`. */
  function Gate(e: Engine, breached: string -> bool, rawData: map<string, string>): (r: Result<map<string, string>, Rejection>)
    requires ValidEngine(e) && "password" in rawData
    ensures r.Ok? ==> r.value.Keys == rawData.Keys
  {
    var p := rawData["password"];
    if StrengthBranchRejects(p) then Err(WeakPassword)
    else if breached(p) then Err(BreachedPassword)
    else Ok(rawData["password" := EncryptPassword(e, p)])
  }

  /**
   * The gate fails with WeakPassword exactly when the strength branch rejects,
   * with BreachedPassword exactly when that branch passes and the lookup
   * reports a breach; on success only the password changes, to its encryption.
   */
  lemma GateOutcomes(e: Engine, breached: string -> bool, rawData: map<string, string>)
    requires ValidEngine(e) && "password" in rawData
    ensures var p := rawData["password"];
            var r := Gate(e, breached, rawData);
            (r == Err(WeakPassword) <==> StrengthBranchRejects(p)) &&
            (r == Err(BreachedPassword) <==> !StrengthBranchRejects(p) && breached(p)) &&
            (r.Ok? ==> r.value.Keys == rawData.Keys
                       && r.value["password"] == EncryptPassword(e, p)
                       && DecryptPassword(e, r.value["password"]) == Some(p)
                       && forall k :: k in rawData && k != "password" ==> r.value[k] == rawData[k])
  {
    DecryptEncrypt(e, rawData["password"]);
  }

  /**
   * `check_password_strength`: the strength branch first, the lookup only when
   * it passes, then the password in the dictionary is replaced by its encryption.
   */
  method CheckPasswordStrength(e: Engine, sha1: Sha1, index: BreachIndex, rawData: map<string, string>)
    returns (r: Result<map<string, string>, Rejection>)
    requires ValidEngine(e) && "password" in rawData
    modifies index
    ensures r == Gate(e, BreachVerdict(sha1, index.ranges), rawData)
    ensures index.sent == if StrengthBranchRejects(rawData["password"]) then old(index.sent)
                          else old(index.sent) + [Prefix(DigestHex(sha1, rawData["password"]))]
    ensures old(index.sent) <= index.sent && |index.sent| <= |old(index.sent)| + 1
  {
    var rawPassword := rawData["password"];
    if StrengthBranchRejects(rawPassword) {
      return Err(WeakPassword);
    }
    var breached := PwnedPassword(sha1, index, rawPassword);
    if breached {
      return Err(BreachedPassword);
    }
    var encrypted := EncryptPassword(e, rawPassword);
    r := Ok(rawData["password" := encrypted]);
  }

  // ---------------------------------------------------------------------------
  // Generator (utility.py:57-66)

  function Range(start: int, n: nat): (s: string)
    requires 0 <= start && start + n <= 0xD800
    ensures |s| == n && forall i :: 0 <= i < n ==> start <= s[i] as int < start + n
  {
    seq(n, i requires 0 <= i < n => (start + i) as char)
  }

  /** `string.ascii_letters[:26]`, `string.ascii_letters[26:]`, `string.digits`, `string.punctuation`. */
  const Lowercase: string := Range('a' as int, 26)
  const Uppercase: string := Range('A' as int, 26)
  const Digits: string := Range('0' as int, 10)
  const Punctuation: string := Range(0x21, 15) + Range(0x3A, 7) + Range(0x5B, 6) + Range(0x7B, 4)
  const Choices: seq<string> := [Lowercase, Uppercase, Digits, Punctuation]

  lemma PunctuationIsPythons()
    ensures Punctuation == "!\"#$%&'()*+,-./:;<=>?@[\\]^_`{|}~"
  {
  }

  /** The class of a character: 0 lower, 1 upper, 2 digit, 3 ASCII punctuation, 4 anything else. */
  function ClassOf(c: char): nat {
    if IsAsciiLower(c) then 0
    else if IsAsciiUpper(c) then 1
    else if IsAsciiDigit(c) then 2
    else if ('!' <= c <= '/') || (':' <= c <= '@') || ('[' <= c <= '`') || ('{' <= c <= '~') then 3
    else 4
  }

  lemma ChoiceClass(k: nat, j: nat)
    requires k < 4 && j < |Choices[k]|
    ensures ClassOf(Choices[k][j]) == k
  {
    if k == 3 {
      var p := Punctuation;
      if j < 15 {
        assert p[j] == Range(0x21, 15)[j];
      } else if j < 22 {
        assert p[j] == Range(0x3A, 7)[j - 15];
      } else if j < 28 {
        assert p[j] == Range(0x5B, 6)[j - 22];
      } else {
        assert p[j] == Range(0x7B, 4)[j - 28];
      }
    }
  }

  /**
   * The password built from the random source: `draw(k)` is the index the k-th
   * call of `random.choice` picks (reduced modulo the alphabet's length).
   */
  function Generated(draw: nat -> nat): string {
    seq(12, i requires 0 <= i < 12 => Choices[i % 4][draw(i) % |Choices[i % 4]|])
  }

  /** `generate_password`: four characters, one from each alphabet in turn, until there are 12. */
  method GeneratePassword(draw: nat -> nat) returns (finalPass: string)
    ensures finalPass == Generated(draw)
  {
    finalPass := "";
    while |finalPass| < 12
      invariant |finalPass| % 4 == 0 && |finalPass| <= 12
      invariant finalPass == Generated(draw)[..|finalPass|]
      decreases 12 - |finalPass|
    {
      ghost var start := |finalPass|;
      for k := 0 to 4
        invariant |finalPass| == start + k
        invariant finalPass == Generated(draw)[..|finalPass|]
      {
        var choice := Choices[k];
        finalPass := finalPass + [choice[draw(|finalPass|) % |choice|]];
      }
    }
  }

  function CountClass(s: string, k: nat): (n: nat)
    ensures n <= |s|
  {
    if s == [] then 0 else CountClass(s[..|s| - 1], k) + (if ClassOf(s[|s| - 1]) == k then 1 else 0)
  }

  /** The serializer's strip leaves a generated password alone: it starts with a letter and ends with punctuation. */
  lemma GeneratedIsStripped(draw: nat -> nat)
    ensures Strip(Generated(draw)) == Generated(draw)
  {
    var pw := Generated(draw);
    GeneratedShape(draw);
    assert ClassOf(pw[0]) == 0 && ClassOf(pw[11]) == 3;
    StripFixed(pw);
  }

  /** Character i of a generated password comes from alphabet i mod 4, so each class occurs exactly 3 times. */
  lemma GeneratedShape(draw: nat -> nat)
    ensures |Generated(draw)| == 12
    ensures forall i :: 0 <= i < 12 ==> ClassOf(Generated(draw)[i]) == i % 4
    ensures forall k :: 0 <= k < 4 ==> CountClass(Generated(draw), k) == 3
  {
    var pw := Generated(draw);
    forall i | 0 <= i < 12 ensures ClassOf(pw[i]) == i % 4 {
      ChoiceClass(i % 4, draw(i) % |Choices[i % 4]|);
    }
    forall k | 0 <= k < 4 ensures CountClass(pw, k) == 3 {
      CountPrefix(pw, k, 12);
      assert pw[..12] == pw;
    }
  }

  lemma {:induction false} CountPrefix(pw: string, k: nat, n: nat)
    requires |pw| == 12 && k < 4 && n <= 12
    requires forall i :: 0 <= i < 12 ==> ClassOf(pw[i]) == i % 4
    ensures CountClass(pw[..n], k) == (n + 3 - k) / 4
  {
    if n > 0 {
      CountPrefix(pw, k, n - 1);
      assert pw[..n][..n - 1] == pw[..n - 1];
      assert ClassOf(pw[..n][n - 1]) == (n - 1) % 4;
      QuarterStep(n - 1, k);
    }
  }

  /** Among 0..m, one more index has residue k modulo 4 than among 0..m-1 exactly when m itself has it. */
  lemma QuarterStep(m: nat, k: nat)
    requires k < 4
    ensures (m + 4 - k) / 4 == (m + 3 - k) / 4 + (if m % 4 == k then 1 else 0)
  {
    var q, r := m / 4, m % 4;
    assert m == 4 * q + r;
    assert (m + 4 - k) / 4 == q + (r + 4 - k) / 4;
    assert (m + 3 - k) / 4 == q + (r + 3 - k) / 4;
  }

  /** Every generated password gets past the strength branch (its length is 12). */
  lemma GeneratedPassesStrengthBranch(draw: nat -> nat)
    ensures !StrengthBranchRejects(Generated(draw))
  {
  }

  /**
   * `string.punctuation` is wider than the symbol class at utility.py:27, so a
   * generated password need not contain a listed symbol: `bB1"` repeated three times has none.
   */
  lemma GeneratedMayLackListedSymbol()
    ensures !HasListedSymbol(Generated(_ => 1))
  {
    var pw := Generated(_ => 1);
    forall i | 0 <= i < 12 ensures pw[i] !in ListedSymbols {
      ChoiceClass(i % 4, 1);
      if i % 4 == 3 { assert pw[i] == Punctuation[1] == '"'; }
    }
  }
}
