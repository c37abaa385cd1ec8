/** The user aggregate, its two-factor enrolment, and its mapping to a database row. */
module User {
  import opened Basics
  import opened AccountLock

  newtype byte = b: int | 0 <= b < 256

  type TokenHash = h: seq<byte> | h != [] witness [0]

  datatype EmailVerification = EmailVerification(
    isVerified: bool, tokenHash: Option<TokenHash>, verifiedAt: Option<Time>, expiresAt: Option<Time>)
  {
    /** A token good for a day. */
    static function CreateUnverified(token: TokenHash, now: Time): EmailVerification {
      EmailVerification(false, Some(token), None, Some(now + Seconds(86_400)))
    }

    predicate Verify(token: TokenHash, now: Time) {
      isVerified || (tokenHash == Some(token) && !(expiresAt.Some? && now >= expiresAt.value))
    }

    function MarkVerified(now: Time): EmailVerification {
      EmailVerification(true, None, Some(now), None)
    }
  }

  datatype PasswordResetToken = PasswordResetToken(
    tokenHash: TokenHash, createdAt: Option<Time>, expiresAt: Option<Time>, isUsed: bool)
  {
    /** A token good for an hour. */
    static function Create(token: TokenHash, now: Time): PasswordResetToken {
      PasswordResetToken(token, Some(now), Some(now + Seconds(3600)), false)
    }

    predicate IsValid(now: Time) {
      !isUsed && expiresAt.Some? && now < expiresAt.value
    }
  }

  datatype TwoFactorSecret = TwoFactorSecret(
    secret: string, backupCodeHashes: seq<TokenHash>, enabledAt: Option<Time>)
  {
    /** Without every copy of the first stored hash that matches, or nothing if none does. */
    function ConsumeBackupCode(candidate: TokenHash): Option<TwoFactorSecret> {
      if candidate in backupCodeHashes
      then Some(this.(backupCodeHashes := Without(backupCodeHashes, candidate)))
      else None
    }
  }

  function Without(hashes: seq<TokenHash>, gone: TokenHash): seq<TokenHash> {
    if hashes == [] then []
    else (if hashes[0] == gone then [] else [hashes[0]]) + Without(hashes[1..], gone)
  }

  /** Every copy of the hash goes and no other hash does. */
  lemma {:induction false} WithoutMembers(hashes: seq<TokenHash>, gone: TokenHash, h: TokenHash)
    ensures h in Without(hashes, gone) <==> h in hashes && h != gone
    ensures multiset(Without(hashes, gone)) == multiset(hashes)[gone := 0]
  {
    if hashes != [] {
      WithoutMembers(hashes[1..], gone, h);
      assert hashes == [hashes[0]] + hashes[1..];
    }
  }

  datatype User = User(
    id: int,
    version: int,
    username: string,
    email: Option<string>,
    hashedPassword: seq<byte>,
    deletedAt: Option<Time>,
    accountLock: AccountLockInfo,
    emailVerification: EmailVerification,
    passwordResetToken: Option<PasswordResetToken>,
    twoFactorSecret: Option<TwoFactorSecret>)
  {
    predicate HasTwoFactor() {
      twoFactorSecret.Some? && twoFactorSecret.value.enabledAt.Some?
    }

    /**
     Whether the code is good, and the user to store. `totpMatches` is the authenticator's
     verdict on the code; only a backup code changes the user.
     */
    function VerifyTwoFactor(totpMatches: bool, candidate: TokenHash): (bool, User) {
      if !HasTwoFactor() then (false, this)
      else if totpMatches then (true, this)
      else match twoFactorSecret.value.ConsumeBackupCode(candidate)
        case Some(consumed) => (true, this.(twoFactorSecret := Some(consumed)))
        case None => (false, this)
    }
  }

  /** The user with one backup code less: that code gone, the others and everything else as they were. */
  ghost predicate LosesOneCode(before: User, after: User, spent: TokenHash) {
    && before.twoFactorSecret.Some? && after.twoFactorSecret.Some?
    && multiset(after.twoFactorSecret.value.backupCodeHashes) == multiset(before.twoFactorSecret.value.backupCodeHashes)[spent := 0]
    && after.twoFactorSecret.value.secret == before.twoFactorSecret.value.secret
    && after.twoFactorSecret.value.enabledAt == before.twoFactorSecret.value.enabledAt
    && after.(twoFactorSecret := before.twoFactorSecret) == before
  }

  /** A code is consumed exactly if it is held, and then it alone is lost. */
  lemma ConsumingOneCode(s: TwoFactorSecret, spent: TokenHash)
    ensures s.ConsumeBackupCode(spent).Some? <==> spent in s.backupCodeHashes
    ensures var after := s.ConsumeBackupCode(spent);
            after.Some? ==>
              && after.value.secret == s.secret && after.value.enabledAt == s.enabledAt
              && multiset(after.value.backupCodeHashes) == multiset(s.backupCodeHashes)[spent := 0]
              && forall h :: h in after.value.backupCodeHashes <==> h in s.backupCodeHashes && h != spent
  {
    forall h ensures h in Without(s.backupCodeHashes, spent) <==> h in s.backupCodeHashes && h != spent {
      WithoutMembers(s.backupCodeHashes, spent, h);
    }
    WithoutMembers(s.backupCodeHashes, spent, spent);
  }

  /**
   A second factor is good exactly if it is enabled and either the authenticator says so, which
   changes nothing, or the code is one of the backup codes, which is then lost.
   */
  lemma VerifyingTwoFactor(u: User, totpMatches: bool, candidate: TokenHash)
    ensures var (verified, after) := u.VerifyTwoFactor(totpMatches, candidate);
            && (verified <==> u.twoFactorSecret.Some? && u.twoFactorSecret.value.enabledAt.Some?
                              && (totpMatches || candidate in u.twoFactorSecret.value.backupCodeHashes))
            && (verified && !totpMatches ==> LosesOneCode(u, after, candidate) && after != u)
            && (!verified || totpMatches ==> after == u)
  {
    if u.twoFactorSecret.Some? {
      ConsumingOneCode(u.twoFactorSecret.value, candidate);
    }
  }

  // ----- the row -----

  datatype UserRow = UserRow(
    id: int,
    version: int,
    username: string,
    email: Option<string>,
    hashedPassword: seq<byte>,
    deletedAt: Option<Time>,
    isLocked: bool,
    lockedAt: Option<Time>,
    lockReason: Option<string>,
    failedAttempts: int,
    lockUntil: Option<Time>,
    isEmailVerified: bool,
    emailVerificationTokenHash: Option<seq<byte>>,
    emailVerifiedAt: Option<Time>,
    emailVerificationExpiresAt: Option<Time>,
    passwordResetTokenHash: Option<seq<byte>>,
    passwordResetCreatedAt: Option<Time>,
    passwordResetExpiresAt: Option<Time>,
    passwordResetUsed: bool,
    twoFactorSecret: Option<seq<byte>>,
    twoFactorEnabledAt: Option<Time>,
    twoFactorBackupCodes: Option<seq<string>>)

  function HexChar(d: int): char
    requires 0 <= d < 16
  {
    if d < 10 then ('0' as int + d) as char else ('a' as int + d - 10) as char
  }

  function ToHex(bytes: seq<byte>): string {
    if bytes == [] then ""
    else [HexChar(bytes[0] as int / 16), HexChar(bytes[0] as int % 16)] + ToHex(bytes[1..])
  }

  function HexDigit(c: char): Option<int> {
    if '0' <= c <= '9' then Some(c as int - '0' as int)
    else if 'a' <= c <= 'f' then Some(c as int - 'a' as int + 10)
    else if 'A' <= c <= 'F' then Some(c as int - 'A' as int + 10)
    else None
  }

  /** `bytes.fromhex` on text without white space; nothing when it would raise. */
  function FromHex(text: string): Option<seq<byte>> {
    if text == "" then Some([])
    else if |text| < 2 then None
    else
      match (HexDigit(text[0]), HexDigit(text[1]), FromHex(text[2..]))
      case (Some(high), Some(low), Some(rest)) => Some([(16 * high + low) as byte] + rest)
      case _ => None
  }

  function HexAll(hashes: seq<TokenHash>): seq<string> {
    if hashes == [] then [] else [ToHex(hashes[0])] + HexAll(hashes[1..])
  }

  /** Nothing when any of the codes fails to decode to a valid hash. */
  function FromHexAll(codes: seq<string>): Option<seq<TokenHash>> {
    if codes == [] then Some([])
    else
      match (FromHex(codes[0]), FromHexAll(codes[1..]))
      case (Some(h), Some(rest)) => if h == [] then None else Some([h] + rest)
      case _ => None
  }

  lemma HexDigitRoundTrip(d: int)
    requires 0 <= d < 16
    ensures HexDigit(HexChar(d)) == Some(d)
  {
  }

  lemma PairRoundTrip(b: byte, rest: string, tail: seq<byte>)
    requires FromHex(rest) == Some(tail)
    ensures FromHex([HexChar(b as int / 16), HexChar(b as int % 16)] + rest) == Some([b] + tail)
  {
    var high, low := b as int / 16, b as int % 16;
    HexDigitRoundTrip(high);
    HexDigitRoundTrip(low);
    var text := [HexChar(high), HexChar(low)] + rest;
    assert text[0] == HexChar(high) && text[1] == HexChar(low) && text[2..] == rest;
    assert (16 * high + low) as byte == b;
  }

  lemma {:induction false} HexRoundTrip(bytes: seq<byte>)
    ensures FromHex(ToHex(bytes)) == Some(bytes)
  {
    if bytes != [] {
      HexRoundTrip(bytes[1..]);
      PairRoundTrip(bytes[0], ToHex(bytes[1..]), bytes[1..]);
      assert [bytes[0]] + bytes[1..] == bytes;
    }
  }

  lemma {:induction false} HexAllRoundTrip(hashes: seq<TokenHash>)
    ensures FromHexAll(HexAll(hashes)) == Some(hashes)
  {
    if hashes != [] {
      HexRoundTrip(hashes[0]);
      HexAllRoundTrip(hashes[1..]);
      assert HexAll(hashes)[1..] == HexAll(hashes[1..]);
      assert [hashes[0]] + hashes[1..] == hashes;
    }
  }

  /** What the row mapping needs of the cipher: ciphertexts are never empty and decrypt to what was encrypted. */
  ghost predicate CipherWorks(encrypt: (string, int) -> seq<byte>, decrypt: seq<byte> -> string) {
    forall secret, nonce :: encrypt(secret, nonce) != [] && decrypt(encrypt(secret, nonce)) == secret
  }

  function NonEmpty(bytes: Option<seq<byte>>): Option<TokenHash> {
    if bytes.Some? && bytes.value != [] then Some(bytes.value) else None
  }

  /** `_row_to_user`; nothing when the stored backup codes would make it raise. */
  function RowToUser(row: UserRow, decrypt: seq<byte> -> string): Option<User> {
    var reset := match NonEmpty(row.passwordResetTokenHash)
      case Some(h) => Some(PasswordResetToken(h, row.passwordResetCreatedAt, row.passwordResetExpiresAt, row.passwordResetUsed))
      case None => None;
    var codes := FromHexAll(if row.twoFactorBackupCodes.Some? then row.twoFactorBackupCodes.value else []);
    var sealed := row.twoFactorSecret.Some? && row.twoFactorSecret.value != [];
    if sealed && codes.None? then None
    else
      var secret := if sealed
        then Some(TwoFactorSecret(decrypt(row.twoFactorSecret.value), codes.value, row.twoFactorEnabledAt))
        else None;
      Some(User(
        row.id, row.version, row.username, row.email, row.hashedPassword, row.deletedAt,
        AccountLockInfo(row.isLocked, row.lockedAt, row.lockReason, row.failedAttempts, row.lockUntil),
        EmailVerification(row.isEmailVerified, NonEmpty(row.emailVerificationTokenHash),
                          row.emailVerifiedAt, row.emailVerificationExpiresAt),
        reset, secret))
  }

  /** `_user_to_values` together with the version the caller adds. */
  function UserToRow(u: User, version: int, encrypt: (string, int) -> seq<byte>, nonce: int): UserRow {
    UserRow(
      u.id, version, u.username, u.email, u.hashedPassword, u.deletedAt,
      u.accountLock.isLocked, u.accountLock.lockedAt, u.accountLock.lockReason,
      u.accountLock.failedAttempts, u.accountLock.lockUntil,
      u.emailVerification.isVerified,
      if u.emailVerification.tokenHash.Some? then Some(u.emailVerification.tokenHash.value) else None,
      u.emailVerification.verifiedAt, u.emailVerification.expiresAt,
      if u.passwordResetToken.Some? then Some(u.passwordResetToken.value.tokenHash) else None,
      if u.passwordResetToken.Some? then u.passwordResetToken.value.createdAt else None,
      if u.passwordResetToken.Some? then u.passwordResetToken.value.expiresAt else None,
      if u.passwordResetToken.Some? then u.passwordResetToken.value.isUsed else false,
      if u.twoFactorSecret.Some? then Some(encrypt(u.twoFactorSecret.value.secret, nonce)) else None,
      if u.twoFactorSecret.Some? then u.twoFactorSecret.value.enabledAt else None,
      if u.twoFactorSecret.Some? then Some(HexAll(u.twoFactorSecret.value.backupCodeHashes)) else None)
  }

  /** Storing a user and reading it back loses nothing but the version it was stored under. */
  lemma RowRoundTrip(u: User, version: int, encrypt: (string, int) -> seq<byte>, decrypt: seq<byte> -> string, nonce: int)
    requires CipherWorks(encrypt, decrypt)
    ensures RowToUser(UserToRow(u, version, encrypt, nonce), decrypt) == Some(u.(version := version))
  {
    if u.twoFactorSecret.Some? {
      HexAllRoundTrip(u.twoFactorSecret.value.backupCodeHashes);
      var sealed := encrypt(u.twoFactorSecret.value.secret, nonce);
      assert sealed != [] && decrypt(sealed) == u.twoFactorSecret.value.secret;
    }
  }

  /** Not the hexadecimal form of a hash. */
  predicate BadCode(code: string) {
    FromHex(code).None? || FromHex(code) == Some([])
  }

  lemma {:induction false} CodesThatDoNotRead(codes: seq<string>)
    ensures FromHexAll(codes).None? <==> exists code :: code in codes && BadCode(code)
  {
    if codes != [] {
      CodesThatDoNotRead(codes[1..]);
      assert forall code :: code in codes <==> code == codes[0] || code in codes[1..];
      assert FromHexAll(codes).None? <==> BadCode(codes[0]) || FromHexAll(codes[1..]).None?;
    }
  }

  /** A row fails to read exactly if it has a secret and one of its backup codes is bad. */
  lemma {:induction false} RowsThatDoNotRead(row: UserRow, decrypt: seq<byte> -> string)
    ensures RowToUser(row, decrypt).None?
       <==> row.twoFactorSecret.Some? && row.twoFactorSecret.value != [] && row.twoFactorBackupCodes.Some?
            && exists code :: code in row.twoFactorBackupCodes.value && BadCode(code)
  {
    if row.twoFactorBackupCodes.Some? {
      CodesThatDoNotRead(row.twoFactorBackupCodes.value);
    }
  }
}
