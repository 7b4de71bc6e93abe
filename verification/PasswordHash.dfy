/**
 Password hashes as PHC strings: the Argon2id parameters, salt and key printed by Hash, parsed back and
 bounded by the decoder, and compared by Verify. The key derivation itself is a parameter.
 */
module PasswordHash {
  import opened Base64
  import opened Decimal
  import opened Wrappers

  type Bytes = seq<Byte>

  /** memory in KiB, iterations, parallelism; salt and key lengths go with the salt and the key. */
  datatype Params = Params(memory: nat, iterations: nat, parallelism: nat)

  const ARGON2_VERSION := 19
  const DEFAULT_PARAMS := Params(19 * 1024, 2, 1)
  const SALT_LENGTH := 16
  const KEY_LENGTH := 32

  const MAX_MEMORY := 256 * 1024
  const MAX_ITERATIONS := 10
  const MAX_PARALLELISM := 8
  const MAX_SALT_LENGTH := 128
  const MAX_KEY_LENGTH := 128
  const MAX_B64_LENGTH := 256

  const UINT32_LIMIT: nat := 0x1_0000_0000
  const UINT8_LIMIT: nat := 0x100

  datatype Error = InvalidHash | UnsupportedAlgorithm | UnsupportedVersion | NoRandomness

  datatype Decoded = Decoded(params: Params, salt: Bytes, key: Bytes)

  predicate ParamsInRange(p: Params) {
    && 1 <= p.memory <= MAX_MEMORY && 1 <= p.iterations <= MAX_ITERATIONS && 1 <= p.parallelism <= MAX_PARALLELISM
  }

  // ----- Splitting at the dollar signs -----

  /** strings.Split(s, "$"). */
  function Split(s: string): (parts: seq<string>)
    ensures parts != []
  {
    if s == "" then [""]
    else
      var rest := Split(s[1..]);
      if s[0] == '$' then [""] + rest else [[s[0]] + rest[0]] + rest[1..]
  }

  lemma {:induction false} SplitPlain(part: string)
    requires '$' !in part
    ensures Split(part) == [part]
  {
    if part != "" {
      SplitPlain(part[1..]);
      assert part == [part[0]] + part[1..];
    }
  }

  lemma {:induction false} SplitFirst(part: string, rest: string)
    requires '$' !in part
    ensures Split(part + "$" + rest) == [part] + Split(rest)
  {
    var s := part + "$" + rest;
    if part == "" {
      assert s[1..] == rest;
    } else {
      SplitFirst(part[1..], rest);
      assert s[1..] == part[1..] + "$" + rest;
      assert part == [part[0]] + part[1..];
      assert Split(s[1..])[1..] == Split(rest);
    }
  }

  /** One part more than there are dollar signs. */
  lemma {:induction false} SplitCounts(s: string)
    ensures |Split(s)| == multiset(s)['$'] + 1
  {
    if s != "" {
      SplitCounts(s[1..]);
      assert s == [s[0]] + s[1..];
    }
  }

  /** What stands before the first dollar sign, and the rest. */
  lemma {:induction false} SplitHead(s: string)
    ensures '$' !in Split(s)[0]
    ensures |Split(s)| >= 2 ==> exists rest :: s == Split(s)[0] + "$" + rest && Split(rest) == Split(s)[1..]
  {
    if s != "" && s[0] == '$' {
      assert s == "" + "$" + s[1..];
    } else if s != "" {
      SplitHead(s[1..]);
      var front := Split(s[1..]);
      if |front| >= 2 {
        var rest :| s[1..] == front[0] + "$" + rest && Split(rest) == front[1..];
        assert s == [s[0]] + s[1..] == Split(s)[0] + "$" + rest;
      }
    }
  }

  // ----- Printing -----

  function PrintedParams(p: Params): string {
    "m=" + Dec(p.memory) + ",t=" + Dec(p.iterations) + ",p=" + Dec(p.parallelism)
  }

  function PrintedVersion(version: nat): string {
    "v=" + Dec(version)
  }

  /** A PHC string: $algorithm$v=...$m=...,t=...,p=...$salt$key. */
  function Phc(algorithm: string, version: nat, p: Params, salt: Bytes, key: Bytes): string {
    "" + "$" + (algorithm + "$" + (PrintedVersion(version) + "$" + (PrintedParams(p) + "$" + (
      Encode(STD, salt) + "$" + Encode(STD, key)))))
  }

  /** The string Hash stores. */
  function Format(p: Params, salt: Bytes, key: Bytes): string {
    Phc("argon2id", ARGON2_VERSION, p, salt, key)
  }

  // ----- Parsing -----

  /** Sscanf with the format v=%d; input after the number is not looked at. */
  function ScanVersion(s: string): Option<int> {
    match Literal(s, "v=")
    case None => None
    case Some(rest) => match ScanInt(rest) case None => None case Some((n, _)) => Some(n)
  }

  function ScanField(s: string, tag: string, limit: nat): Option<(nat, string)> {
    match Literal(s, tag) case None => None case Some(rest) => ScanUint(rest, limit)
  }

  /** Sscanf with the format m=%d,t=%d,p=%d into two 32-bit and one 8-bit numbers. */
  function ScanParams(s: string): Option<Params> {
    match ScanField(s, "m=", UINT32_LIMIT)
    case None => None
    case Some((memory, afterMemory)) =>
      match ScanField(afterMemory, ",t=", UINT32_LIMIT)
      case None => None
      case Some((iterations, afterIterations)) =>
        match ScanField(afterIterations, ",p=", UINT8_LIMIT)
        case None => None
        case Some((parallelism, _)) => Some(Params(memory, iterations, parallelism))
  }

  /** A base 64 field that is not too long and holds between one and max bytes. */
  function Field(s: string, max: nat): Option<Bytes> {
    match Base64.Decode(STD, s)
    case None => None
    case Some(b) => if |b| == 0 || |b| > max then None else Some(b)
  }

  /** The checks on the parts, in the order decode makes them. */
  function Checked(algorithm: string, version: Option<int>, params: Option<Params>, tooLong: bool,
                   salt: Option<Bytes>, key: Option<Bytes>): Result<Decoded, Error>
  {
    if algorithm != "argon2id" then Err(UnsupportedAlgorithm)
    else if version.None? then Err(InvalidHash)
    else if version.value != ARGON2_VERSION then Err(UnsupportedVersion)
    else if params.None? || !ParamsInRange(params.value) then Err(InvalidHash)
    else if tooLong || salt.None? || key.None? then Err(InvalidHash)
    else Ok(Decoded(params.value, salt.value, key.value))
  }

  /** What decode returns. */
  function Parse(encoded: string): Result<Decoded, Error> {
    var parts := Split(encoded);
    if |parts| != 6 then Err(InvalidHash)
    else
      Checked(parts[1], ScanVersion(parts[2]), ScanParams(parts[3]),
              |parts[4]| > MAX_B64_LENGTH || |parts[5]| > MAX_B64_LENGTH,
              Field(parts[4], MAX_SALT_LENGTH), Field(parts[5], MAX_KEY_LENGTH))
  }

  /** decode, filling in the result field by field. */
  method Decode(encoded: string) returns (r: Result<Decoded, Error>)
    ensures r == Parse(encoded)
  {
    var parts := Split(encoded);
    if |parts| != 6 {
      return Err(InvalidHash);
    }
    if parts[1] != "argon2id" {
      return Err(UnsupportedAlgorithm);
    }
    var version := ScanVersion(parts[2]);
    if version.None? {
      return Err(InvalidHash);
    }
    if version.value != ARGON2_VERSION {
      return Err(UnsupportedVersion);
    }
    var p := ScanParams(parts[3]);
    if p.None? || !ParamsInRange(p.value) {
      return Err(InvalidHash);
    }
    if |parts[4]| > MAX_B64_LENGTH || |parts[5]| > MAX_B64_LENGTH {
      return Err(InvalidHash);
    }
    var salt := Base64.Decode(STD, parts[4]);
    if salt.None? || |salt.value| == 0 || |salt.value| > MAX_SALT_LENGTH {
      return Err(InvalidHash);
    }
    var key := Base64.Decode(STD, parts[5]);
    if key.None? || |key.value| == 0 || |key.value| > MAX_KEY_LENGTH {
      return Err(InvalidHash);
    }
    return Ok(Decoded(p.value, salt.value, key.value));
  }

  // ----- The round trip -----

  lemma NoDollarInDec(n: nat)
    ensures '$' !in Dec(n)
  {
    forall c | c in Dec(n) ensures IsDigit(c) {
      var i :| 0 <= i < |Dec(n)| && Dec(n)[i] == c;
    }
  }

  lemma NoDollarInBase64(b: Bytes)
    ensures '$' !in Encode(STD, b)
  {
    if '$' in Encode(STD, b) {
      EncodedChars(STD, ToDigits(b), '$');
    }
  }

  lemma NoDollarInParams(p: Params)
    ensures '$' !in PrintedParams(p)
  {
    NoDollarInDec(p.memory);
    NoDollarInDec(p.iterations);
    NoDollarInDec(p.parallelism);
  }

  lemma ScanPrintedVersion(version: nat)
    ensures '$' !in PrintedVersion(version)
    ensures version < INT64_LIMIT ==> ScanVersion(PrintedVersion(version)) == Some(version)
  {
    NoDollarInDec(version);
    LiteralThen("v=", Dec(version));
    ScanPrinted(version, "", UINT32_LIMIT);
    assert Dec(version) + "" == Dec(version);
  }

  lemma ScanPrintedField(n: nat, tag: string, rest: string, limit: nat)
    requires rest != "" ==> !IsDigit(rest[0])
    ensures ScanField(tag + Dec(n) + rest, tag, limit) == if n < limit then Some((n, rest)) else None
  {
    assert tag + Dec(n) + rest == tag + (Dec(n) + rest);
    LiteralThen(tag, Dec(n) + rest);
    ScanPrinted(n, rest, limit);
  }

  lemma ScanPrintedParams(p: Params)
    ensures ScanParams(PrintedParams(p)) ==
      if p.memory < UINT32_LIMIT && p.iterations < UINT32_LIMIT && p.parallelism < UINT8_LIMIT then Some(p) else None
  {
    var third := ",p=" + Dec(p.parallelism) + "";
    var second := ",t=" + Dec(p.iterations) + third;
    assert PrintedParams(p) == "m=" + Dec(p.memory) + second;
    ScanPrintedField(p.memory, "m=", second, UINT32_LIMIT);
    ScanPrintedField(p.iterations, ",t=", third, UINT32_LIMIT);
    ScanPrintedField(p.parallelism, ",p=", "", UINT8_LIMIT);
  }

  lemma SplitPhc(algorithm: string, version: nat, p: Params, salt: Bytes, key: Bytes)
    requires '$' !in algorithm
    ensures Split(Phc(algorithm, version, p, salt, key)) ==
      ["", algorithm, PrintedVersion(version), PrintedParams(p), Encode(STD, salt), Encode(STD, key)]
  {
    ScanPrintedVersion(version);
    NoDollarInParams(p);
    NoDollarInBase64(salt);
    NoDollarInBase64(key);
    SplitSix("", algorithm, PrintedVersion(version), PrintedParams(p), Encode(STD, salt), Encode(STD, key));
  }

  lemma SplitSix(a: string, b: string, c: string, d: string, e: string, f: string)
    requires '$' !in a && '$' !in b && '$' !in c && '$' !in d && '$' !in e && '$' !in f
    ensures Split(a + "$" + (b + "$" + (c + "$" + (d + "$" + (e + "$" + f))))) == [a, b, c, d, e, f]
  {
    SplitFirst(a, b + "$" + (c + "$" + (d + "$" + (e + "$" + f))));
    SplitFirst(b, c + "$" + (d + "$" + (e + "$" + f)));
    SplitFirst(c, d + "$" + (e + "$" + f));
    SplitFirst(d, e + "$" + f);
    SplitFirst(e, f);
    SplitPlain(f);
  }

  lemma FieldOfEncoded(b: Bytes, max: nat)
    ensures Field(Encode(STD, b), max) == if 1 <= |b| <= max then Some(b) else None
  {
    DecodeEncode(STD, b);
  }

  /** decode inverts a printed PHC string exactly for Argon2id in version 19 with the parameters and lengths
      in range, and otherwise says what it does not support. */
  lemma ParsePhc(algorithm: string, version: nat, p: Params, salt: Bytes, key: Bytes)
    requires '$' !in algorithm && version < INT64_LIMIT
    ensures Parse(Phc(algorithm, version, p, salt, key)) ==
      if algorithm != "argon2id" then Err(UnsupportedAlgorithm)
      else if version != 19 then Err(UnsupportedVersion)
      else if 1 <= p.memory <= 262144 && 1 <= p.iterations <= 10 && 1 <= p.parallelism <= 8
              && 1 <= |salt| <= 128 && 1 <= |key| <= 128
      then Ok(Decoded(p, salt, key))
      else Err(InvalidHash)
  {
    PhcIsChecked(algorithm, version, p, salt, key);
    ScanPrintedVersion(version);
    ScanPrintedParams(p);
    FieldOfEncoded(salt, MAX_SALT_LENGTH);
    FieldOfEncoded(key, MAX_KEY_LENGTH);
  }

  lemma PhcIsChecked(algorithm: string, version: nat, p: Params, salt: Bytes, key: Bytes)
    requires '$' !in algorithm
    ensures Parse(Phc(algorithm, version, p, salt, key)) ==
      Checked(algorithm, ScanVersion(PrintedVersion(version)), ScanParams(PrintedParams(p)),
              |Encode(STD, salt)| > MAX_B64_LENGTH || |Encode(STD, key)| > MAX_B64_LENGTH,
              Field(Encode(STD, salt), MAX_SALT_LENGTH), Field(Encode(STD, key), MAX_KEY_LENGTH))
  {
    SplitPhc(algorithm, version, p, salt, key);
  }

  /** In particular the form Hash prints. */
  lemma ParseFormat(p: Params, salt: Bytes, key: Bytes)
    ensures Parse(Format(p, salt, key)) ==
      if ParamsInRange(p) && 1 <= |salt| <= MAX_SALT_LENGTH && 1 <= |key| <= MAX_KEY_LENGTH
      then Ok(Decoded(p, salt, key))
      else Err(InvalidHash)
  {
    ParsePhc("argon2id", ARGON2_VERSION, p, salt, key);
  }

  /** Whatever decode accepts, printed by this program or not, has six parts, names Argon2id and a version,
      and asks for bounded work; a text with another number of parts is no hash. */
  lemma ParsedIsBounded(encoded: string)
    ensures multiset(encoded)['$'] != 5 ==> Parse(encoded) == Err(InvalidHash)
    ensures Parse(encoded).Ok? ==>
      && (exists head, rest :: '$' !in head && encoded == head + "$argon2id$v=" + rest)
      && var d := Parse(encoded).value;
         && 1 <= d.params.memory <= 262144 && 1 <= d.params.iterations <= 10 && 1 <= d.params.parallelism <= 8
         && 1 <= |d.salt| <= 128 && 1 <= |d.key| <= 128
  {
    SplitCounts(encoded);
    if Parse(encoded).Ok? {
      AcceptedShape(encoded);
    }
  }

  lemma AcceptedShape(encoded: string)
    requires |Split(encoded)| == 6 && Split(encoded)[1] == "argon2id" && ScanVersion(Split(encoded)[2]).Some?
    ensures exists head, rest :: '$' !in head && encoded == head + "$argon2id$v=" + rest
  {
    SplitHead(encoded);
    var head := Split(encoded)[0];
    var second := RestOf(encoded);
    var third := RestOf(second);
    var fourth := RestOf(third);
    VersionHead(Split(encoded)[2]);
    var tail :| Split(encoded)[2] == "v=" + tail;
    Joined(encoded, head, second, third, tail, fourth);
  }

  lemma RestOf(s: string) returns (rest: string)
    requires |Split(s)| >= 2
    ensures s == Split(s)[0] + "$" + rest && Split(rest) == Split(s)[1..]
  {
    SplitHead(s);
    rest :| s == Split(s)[0] + "$" + rest && Split(rest) == Split(s)[1..];
  }

  lemma VersionHead(s: string)
    requires ScanVersion(s).Some?
    ensures exists tail :: s == "v=" + tail
  {
    assert s == "v=" + s[2..];
  }

  lemma Joined(encoded: string, head: string, second: string, third: string, tail: string, fourth: string)
    requires encoded == head + "$" + second && second == "argon2id" + "$" + third && third == "v=" + tail + "$" + fourth
    ensures encoded == head + "$argon2id$v=" + (tail + "$" + fourth)
  {
    assert "$" + ("argon2id" + "$" + ("v=" + (tail + "$" + fourth))) == "$argon2id$v=" + (tail + "$" + fourth);
  }

  /** What a text of six parts is refused for. */
  lemma RefusalIff(encoded: string)
    ensures var parts := Split(encoded);
      && (Parse(encoded) == Err(UnsupportedAlgorithm) <==> |parts| == 6 && parts[1] != "argon2id")
      && (Parse(encoded) == Err(UnsupportedVersion) <==>
           && |parts| == 6 && parts[1] == "argon2id"
           && ScanVersion(parts[2]).Some? && ScanVersion(parts[2]).value != 19)
      && Parse(encoded) != Err(NoRandomness)
  {
  }

  // ----- Hashing and verifying -----

  /** argon2.IDKey: password, salt, parameters and the key length asked for. */
  type Kdf = (Bytes, Bytes, Params, nat) -> Bytes

  ghost predicate IsKdf(kdf: Kdf) {
    forall password, salt, p, length :: |kdf(password, salt, p, length)| == length
  }

  /** What Verify answers. */
  function Verified(kdf: Kdf, password: Bytes, encoded: string): Result<bool, Error> {
    match Parse(encoded)
    case Err(e) => Err(e)
    case Ok(d) => Ok(d.key == kdf(password, d.salt, d.params, |d.key|))
  }

  method Verify(kdf: Kdf, password: Bytes, encoded: string) returns (r: Result<bool, Error>)
    ensures r == Verified(kdf, password, encoded)
  {
    var d := Decode(encoded);
    if d.Err? {
      return Err(d.error);
    }
    var candidate := kdf(password, d.value.salt, d.value.params, |d.value.key|);
    return Ok(d.value.key == candidate);
  }

  /** A password verifies against a hash made from any password, whatever its salt, key length and
      parameters, exactly when the two derive the same key; so every password verifies against its own
      hash. */
  lemma VerifyHashed(kdf: Kdf, password: Bytes, other: Bytes, p: Params, salt: Bytes, length: nat)
    requires IsKdf(kdf) && ParamsInRange(p) && 1 <= |salt| <= MAX_SALT_LENGTH && 1 <= length <= MAX_KEY_LENGTH
    ensures var encoded := Format(p, salt, kdf(password, salt, p, length));
      && Verified(kdf, password, encoded) == Ok(true)
      && Verified(kdf, other, encoded) == Ok(kdf(password, salt, p, length) == kdf(other, salt, p, length))
  {
    ParseFormat(p, salt, kdf(password, salt, p, length));
  }

  /** random is the salt the system generates, None when it cannot. decode reads the default parameters, the
      salt and a key of 32 bytes out of the result, which verifies the password, and another one exactly
      when it derives the same key. */
  method Hash(kdf: Kdf, password: Bytes, random: Option<Bytes>) returns (r: Result<string, Error>)
    requires random.Some? ==> |random.value| == SALT_LENGTH
    ensures r.Err? <==> random.None?
    ensures r.Err? ==> r.error == NoRandomness
    ensures IsKdf(kdf) && r.Ok? ==>
      Parse(r.value) == Ok(Decoded(Params(19456, 2, 1), random.value, kdf(password, random.value, Params(19456, 2, 1), 32)))
    ensures r.Ok? ==>
      r.value == Format(DEFAULT_PARAMS, random.value, kdf(password, random.value, DEFAULT_PARAMS, KEY_LENGTH))
    ensures IsKdf(kdf) && r.Ok? ==> Verified(kdf, password, r.value) == Ok(true)
    ensures IsKdf(kdf) && r.Ok? ==> forall other ::
      Verified(kdf, other, r.value) ==
        Ok(kdf(password, random.value, DEFAULT_PARAMS, KEY_LENGTH) == kdf(other, random.value, DEFAULT_PARAMS, KEY_LENGTH))
  {
    if random.None? {
      return Err(NoRandomness);
    }
    var salt := random.value;
    var key := kdf(password, salt, DEFAULT_PARAMS, KEY_LENGTH);
    forall other | IsKdf(kdf) {
      VerifyHashed(kdf, password, other, DEFAULT_PARAMS, salt, KEY_LENGTH);
    }
    ParseFormat(DEFAULT_PARAMS, salt, key);
    return Ok(Format(DEFAULT_PARAMS, salt, key));
  }
}
