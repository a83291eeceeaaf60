/** The name of the index backup: an encoded password hash followed by the salt it was made with, so that
    whoever has the password can recognise it. */
module SaltedNames {
  import opened Common
  import opened Base64

  const SALT_BYTES: nat := 18
  const HASHED_SALT_BYTES: nat := 16
  const KEY_BYTES: nat := 48
  const KEY_LETTERS: nat := 64

  datatype Failure = OutOfMemory | OutOfRange

  /** The password hash: a function of the password and of the salt bytes it reads, which may run out of
      memory. */
  type PasswordHash = (string, seq<byte>) -> Option<seq<byte>>

  ghost predicate MakesKeys(h: PasswordHash) {
    forall pw, salt :: h(pw, salt).Some? ==> |h(pw, salt).value| == KEY_BYTES
  }

  predicate NoZero(s: seq<byte>) {
    forall i :: 0 <= i < |s| ==> s[i] != 0
  }

  /** What `strcpy` copies: everything before the first zero byte. */
  function CString(s: seq<byte>): (r: seq<byte>)
    ensures r <= s && NoZero(r)
    ensures |r| < |s| ==> s[|r|] == 0
  {
    if s == [] || s[0] == 0 then [] else [s[0]] + CString(s[1..])
  }

  /** The salt buffer after `strcpy`: behind the terminating zero it keeps what it held before. */
  function SaltBuffer(s: seq<byte>, before: seq<byte>): (r: seq<byte>)
    requires |before| == SALT_BYTES
    ensures |r| == SALT_BYTES
  {
    var c := CString(s);
    seq(SALT_BYTES, i requires 0 <= i < SALT_BYTES =>
      if i < |c| then c[i] else if i == |c| then 0 else before[i])
  }

  /** The part of the buffer that the password hash reads. */
  function HashedSalt(s: seq<byte>, before: seq<byte>): (r: seq<byte>)
    requires |before| == SALT_BYTES
    ensures |r| == HASHED_SALT_BYTES
  {
    SaltBuffer(s, before)[..HASHED_SALT_BYTES]
  }

  function DerivedKey(h: PasswordHash, pw: string, salt: string, before: seq<byte>): Result<string, Failure>
    requires |before| == SALT_BYTES
  {
    match h(pw, HashedSalt(Decode(salt), before))
    case None => Err(OutOfMemory)
    case Some(key) => Ok(EncodePadded(key) + salt)
  }

  /** With a salt drawn at random. */
  function DerivedName(h: PasswordHash, pw: string, random: seq<byte>, before: seq<byte>): Result<string, Failure>
    requires |before| == SALT_BYTES
  {
    DerivedKey(h, pw, EncodePadded(random), before)
  }

  function VerifiedKey(h: PasswordHash, pw: string, name: string, before: seq<byte>): Result<bool, Failure>
    requires |before| == SALT_BYTES
  {
    if |name| < KEY_LETTERS then Err(OutOfRange)
    else
      match DerivedKey(h, pw, name[KEY_LETTERS..], before)
      case Err(e) => Err(e)
      case Ok(derived) => Ok(derived == name)
  }

  /** What `strcpy` makes of memory from its target on: the terminating zero is written, too. */
  function Copied(s: seq<byte>, memory: seq<byte>): (r: seq<byte>)
    requires |CString(s)| < |memory|
    ensures |r| == |memory|
  {
    CString(s) + [0] + memory[|CString(s)| + 1..]
  }

  lemma CopiedIsBuffer(s: seq<byte>, memory: seq<byte>)
    requires |CString(s)| < |memory| && SALT_BYTES <= |memory|
    ensures Copied(s, memory)[..SALT_BYTES] == SaltBuffer(s, memory[..SALT_BYTES])
  {}

  lemma ZeroStops(s: seq<byte>, k: nat)
    requires k < |s| && s[k] == 0
    ensures |CString(s)| <= k
  {
    assert forall i :: 0 <= i < |CString(s)| ==> s[i] == CString(s)[i] != 0;
  }

  lemma LongPrefix(s: seq<byte>, memory: seq<byte>)
    requires |CString(s)| >= SALT_BYTES && |memory| == SALT_BYTES
    ensures HashedSalt(s, memory) == s[..HASHED_SALT_BYTES]
  {
    assert forall i :: 0 <= i < |CString(s)| ==> s[i] == CString(s)[i];
  }

  /** The copy stays inside the salt buffer exactly when the source ends, or has a zero byte, before the
      buffer does.  Otherwise it writes behind the buffer, but what the hash reads is the salt all the same. */
  lemma CopyStaysInsideExactlyWhen(s: seq<byte>, memory: seq<byte>)
    requires |memory| == SALT_BYTES
    ensures |CString(s)| + 1 <= SALT_BYTES <==> |s| < SALT_BYTES || !NoZero(s[..SALT_BYTES])
    ensures |CString(s)| + 1 > SALT_BYTES ==> HashedSalt(s, memory) == s[..HASHED_SALT_BYTES]
  {
    if |CString(s)| >= SALT_BYTES {
      LongPrefix(s, memory);
    }
    if |s| >= SALT_BYTES {
      if NoZero(s[..SALT_BYTES]) {
        CStringLong(s, SALT_BYTES);
      } else {
        var k :| 0 <= k < SALT_BYTES && s[..SALT_BYTES][k] == 0;
        ZeroStops(s, k);
      }
    }
  }

  /** `stack` is what memory holds from the salt buffer on: the buffer and what lies behind it. */
  method DeriveKey(h: PasswordHash, pw: string, salt: string, stack: seq<byte>) returns (r: Result<string, Failure>)
    requires IsByteString(salt) && SALT_BYTES <= |stack| && |Decode(salt)| < |stack|
    ensures r == DerivedKey(h, pw, salt, stack[..SALT_BYTES])
  {
    var memory := new byte[|stack|](i requires 0 <= i < |stack| => stack[i]);
    var decoded := DecodeStream(salt);
    assert memory[..] == stack;
    StrCpy(memory, decoded);
    CopiedIsBuffer(decoded, stack);
    assert memory[..HASHED_SALT_BYTES] == memory[..][..SALT_BYTES][..HASHED_SALT_BYTES];
    var key := h(pw, memory[..HASHED_SALT_BYTES]);
    if key.None? {
      return Err(OutOfMemory);
    }
    var letters := EncodeBlocks(key.value);
    return Ok(letters + salt);
  }

  method StrCpy(memory: array<byte>, s: seq<byte>)
    requires |s| < memory.Length
    modifies memory
    ensures memory[..] == Copied(s, old(memory[..]))
  {
    var i := 0;
    while i < |s| && s[i] != 0
      invariant 0 <= i <= |s| && NoZero(s[..i])
      invariant forall k :: 0 <= k < memory.Length ==> memory[k] == if k < i then s[k] else old(memory[k])
    {
      assert s[..i + 1] == s[..i] + [s[i]];
      memory[i] := s[i];
      i := i + 1;
    }
    memory[i] := 0;
    CStringIs(s, i);
  }

  lemma CStringLong(s: seq<byte>, i: nat)
    requires i <= |s| && NoZero(s[..i])
    ensures |CString(s)| >= i && CString(s)[..i] == s[..i]
  {}

  lemma CStringIs(s: seq<byte>, i: nat)
    requires i <= |s| && NoZero(s[..i]) && (i < |s| ==> s[i] == 0)
    ensures CString(s) == s[..i]
  {
    CStringLong(s, i);
    assert forall k :: 0 <= k < |CString(s)| ==> s[k] == CString(s)[k] != 0;
  }

  method VerifyKey(h: PasswordHash, pw: string, name: string, stack: seq<byte>) returns (r: Result<bool, Failure>)
    requires IsByteString(name) && SALT_BYTES <= |stack|
    requires |name| >= KEY_LETTERS ==> |Decode(name[KEY_LETTERS..])| < |stack|
    ensures r == VerifiedKey(h, pw, name, stack[..SALT_BYTES])
  {
    if |name| < KEY_LETTERS {
      return Err(OutOfRange);
    }
    var derived := DeriveKey(h, pw, name[KEY_LETTERS..], stack);
    match derived {
      case Err(e) => return Err(e);
      case Ok(key) => return Ok(key == name);
    }
  }

  // ---------------------------------------------------------------- names verify themselves

  /** No zero among the bytes that decide where `strcpy` stops before the hash has all it reads. */
  predicate NoEarlyZero(salt: seq<byte>) {
    |salt| == SALT_BYTES && forall i :: 0 <= i < HASHED_SALT_BYTES - 1 ==> salt[i] != 0
  }

  lemma NoEarlyZeroFixes(salt: seq<byte>, before: seq<byte>)
    requires NoEarlyZero(salt) && |before| == SALT_BYTES
    ensures HashedSalt(salt, before) == salt[..HASHED_SALT_BYTES]
  {}

  function Filled(b: byte): (r: seq<byte>)
    ensures |r| == SALT_BYTES
  {
    seq(SALT_BYTES, _ => b)
  }

  lemma EarlyZeroLeaks(salt: seq<byte>)
    requires |salt| == SALT_BYTES && !NoEarlyZero(salt)
    ensures HashedSalt(salt, Filled(0)) != HashedSalt(salt, Filled(1))
  {
    var n := |CString(salt)|;
    assert forall i :: 0 <= i < n ==> salt[i] == CString(salt)[i] != 0;
    assert n + 1 < HASHED_SALT_BYTES;
    assert HashedSalt(salt, Filled(0))[n + 1] == 0 && HashedSalt(salt, Filled(1))[n + 1] == 1;
  }

  lemma DerivedNameIs(h: PasswordHash, pw: string, salt: seq<byte>, before: seq<byte>)
    requires MakesKeys(h) && |salt| == SALT_BYTES == |before|
    requires h(pw, HashedSalt(salt, before)).Some?
    ensures var key := h(pw, HashedSalt(salt, before)).value;
      var name := Encode(key) + Encode(salt);
      && DerivedName(h, pw, salt, before) == Ok(name)
      && |name| == 88 && name[..KEY_LETTERS] == Encode(key) && name[KEY_LETTERS..] == Encode(salt)
      && Decode(name[..KEY_LETTERS]) == key && Decode(name[KEY_LETTERS..]) == salt
  {
    GroupsBijection(6, "", salt);
    GroupsBijection(16, "", h(pw, HashedSalt(salt, before)).value);
  }

  /** The name that is derived for a drawn salt has 88 letters and splits into the key and the salt. */
  lemma NameShape(h: PasswordHash, pw: string, salt: seq<byte>, before: seq<byte>)
    requires MakesKeys(h) && |salt| == SALT_BYTES == |before|
    ensures var r := DerivedName(h, pw, salt, before);
      r.Ok? ==>
        && |r.value| == 88 && IsLetters(r.value)
        && Decode(r.value[KEY_LETTERS..]) == salt
        && h(pw, HashedSalt(salt, before)) == Some(Decode(r.value[..KEY_LETTERS]))
  {
    if h(pw, HashedSalt(salt, before)).Some? {
      DerivedNameIs(h, pw, salt, before);
    } else {
      GroupsBijection(6, "", salt);
    }
  }

  /** Verification looks at the key letters only, and compares them with the hash for the salt that the
      other letters decode to. */
  lemma VerifyComparesKeys(h: PasswordHash, pw: string, name: string, before: seq<byte>)
    requires MakesKeys(h) && |before| == SALT_BYTES && |name| >= KEY_LETTERS
    ensures var key := h(pw, HashedSalt(Decode(name[KEY_LETTERS..]), before));
      && (key.None? ==> VerifiedKey(h, pw, name, before) == Err(OutOfMemory))
      && (key.Some? ==> VerifiedKey(h, pw, name, before) == Ok(name[..KEY_LETTERS] == Encode(key.value)))
  {}

  /** Whatever the salt, a name cannot be derived exactly when the password hash runs out of memory. */
  lemma DeriveFailsExactlyWhen(h: PasswordHash, pw: string, salt: seq<byte>, before: seq<byte>)
    requires |salt| == 18 == |before|
    ensures DerivedName(h, pw, salt, before) == Err(OutOfMemory) <==> h(pw, HashedSalt(salt, before)).None?
    ensures DerivedName(h, pw, salt, before) != Err(OutOfRange)
  {
    GroupsBijection(6, "", salt);
  }

  /** What is too short to hold a key is not a name: asking for its salt is out of range. */
  lemma ShortNamesExactlyWhen(h: PasswordHash, pw: string, name: string, before: seq<byte>)
    requires |before| == 18
    ensures VerifiedKey(h, pw, name, before) == Err(OutOfRange) <==> |name| < 64
  {}

  /** Whatever the buffers hold when the name is made and when it is verified. */
  ghost predicate AlwaysVerifies(h: PasswordHash, pw: string, salt: seq<byte>) {
    forall before, later :: |before| == SALT_BYTES && |later| == SALT_BYTES ==>
      var r := DerivedName(h, pw, salt, before);
      r.Ok? && VerifiedKey(h, pw, r.value, later) == Ok(true)
  }

  lemma DerivedVerifies(h: PasswordHash, pw: string, salt: seq<byte>, before: seq<byte>, later: seq<byte>)
    requires MakesKeys(h) && |salt| == |before| == |later| == SALT_BYTES
    requires h(pw, HashedSalt(salt, before)).Some? && h(pw, HashedSalt(salt, later)).Some?
    ensures var r := DerivedName(h, pw, salt, before);
      && r.Ok?
      && VerifiedKey(h, pw, r.value, later) == Ok(h(pw, HashedSalt(salt, before)) == h(pw, HashedSalt(salt, later)))
  {
    DerivedNameIs(h, pw, salt, before);
    VerifyComparesKeys(h, pw, DerivedName(h, pw, salt, before).value, later);
    var a, b := h(pw, HashedSalt(salt, before)).value, h(pw, HashedSalt(salt, later)).value;
    DecodeEncode(a);
    DecodeEncode(b);
  }

  /** For a password hash that never fails and tells salts apart, the names made with a salt can be relied
      on to verify exactly when the salt has no zero byte among its first 15. */
  lemma {:induction false} NamesVerifyExactlyWhen(h: PasswordHash, pw: string, salt: seq<byte>)
    requires MakesKeys(h) && |salt| == SALT_BYTES
    requires forall s :: h(pw, s).Some?
    requires forall s, t :: |s| == |t| == HASHED_SALT_BYTES && h(pw, s) == h(pw, t) ==> s == t
    ensures AlwaysVerifies(h, pw, salt) <==> forall i :: 0 <= i < 15 ==> salt[i] != 0
  {
    assert NoEarlyZero(salt) <==> forall i :: 0 <= i < 15 ==> salt[i] != 0;
    forall before: seq<byte>, later: seq<byte> | |before| == SALT_BYTES && |later| == SALT_BYTES
      ensures var r := DerivedName(h, pw, salt, before);
        r.Ok? && VerifiedKey(h, pw, r.value, later)
              == Ok(h(pw, HashedSalt(salt, before)) == h(pw, HashedSalt(salt, later)))
    {
      DerivedVerifies(h, pw, salt, before, later);
    }
    if NoEarlyZero(salt) {
      forall before: seq<byte>, later: seq<byte> | |before| == SALT_BYTES && |later| == SALT_BYTES
        ensures var r := DerivedName(h, pw, salt, before); r.Ok? && VerifiedKey(h, pw, r.value, later) == Ok(true)
      {
        NoEarlyZeroFixes(salt, before);
        NoEarlyZeroFixes(salt, later);
      }
    } else {
      EarlyZeroLeaks(salt);
    }
  }
}
