/**
 * Salted password storage of the user service. A stored password is the text
 * `salt:hash`, where the hash digests the password followed by the salt. The
 * digest function and the random salt are parameters of the model: the digest
 * is any function from text to text, and the salt is whatever the random
 * source produced.
 */
module Passwords {

  const Separator: char := ':'

  /** Python's `s.split(sep)`: the pieces between occurrences of `sep`, empty pieces kept. */
  function Split(s: string, sep: char): (parts: seq<string>)
    ensures |parts| >= 1
    ensures forall i :: 0 <= i < |parts| ==> sep !in parts[i]
    decreases |s|
  {
    if |s| == 0 then [""]
    else
      var rest := Split(s[1..], sep);
      if s[0] == sep then [""] + rest
      else [[s[0]] + rest[0]] + rest[1..]
  }

  /** `sep.join(parts)`. */
  function Join(parts: seq<string>, sep: char): string
    requires |parts| >= 1
  {
    if |parts| == 1 then parts[0] else parts[0] + [sep] + Join(parts[1..], sep)
  }

  /** There is one more piece than there are separators. */
  lemma {:induction false} SplitCount(s: string, sep: char)
    ensures |Split(s, sep)| == multiset(s)[sep] + 1
    decreases |s|
  {
    if |s| > 0 {
      SplitCount(s[1..], sep);
      assert s == [s[0]] + s[1..];
      assert multiset(s) == multiset([s[0]]) + multiset(s[1..]);
    }
  }

  /** Joining the pieces with the separator gives back the text. */
  lemma {:induction false} JoinSplit(s: string, sep: char)
    ensures Join(Split(s, sep), sep) == s
    decreases |s|
  {
    if |s| > 0 {
      JoinSplit(s[1..], sep);
      var rest := Split(s[1..], sep);
      var parts := Split(s, sep);
      SplitCons(s[0], s[1..], sep);
      assert s == [s[0]] + s[1..];
      if s[0] == sep {
        assert parts[1..] == rest;
      } else {
        JoinFirstChar(parts, sep);
        assert [parts[0][1..]] + parts[1..] == rest;
      }
    }
  }

  /** Splitting undoes joining pieces that do not contain the separator. */
  lemma {:induction false} SplitJoin(parts: seq<string>, sep: char)
    requires |parts| >= 1
    requires forall i :: 0 <= i < |parts| ==> sep !in parts[i]
    ensures Split(Join(parts, sep), sep) == parts
    decreases |parts|, |parts[0]|
  {
    if |parts[0]| == 0 {
      if |parts| > 1 {
        SplitJoin(parts[1..], sep);
        assert Join(parts, sep) == [sep] + Join(parts[1..], sep);
        SplitCons(sep, Join(parts[1..], sep), sep);
        assert parts == [""] + parts[1..];
      }
    } else {
      var c := parts[0][0];
      var shorter := [parts[0][1..]] + parts[1..];
      assert forall i :: 1 <= i < |shorter| ==> shorter[i] == parts[i];
      SplitJoin(shorter, sep);
      JoinFirstChar(parts, sep);
      SplitCons(c, Join(shorter, sep), sep);
      assert [c] + shorter[0] == parts[0];
      assert shorter[1..] == parts[1..];
    }
  }

  /** Splitting a text that starts with `c`, one character at a time. */
  lemma SplitCons(c: char, rest: string, sep: char)
    ensures Split([c] + rest, sep) ==
      if c == sep then [""] + Split(rest, sep)
      else [[c] + Split(rest, sep)[0]] + Split(rest, sep)[1..]
  {
    assert ([c] + rest)[1..] == rest;
  }

  /** Taking the first character off the first piece of a join. */
  lemma JoinFirstChar(parts: seq<string>, sep: char)
    requires |parts| >= 1 && |parts[0]| >= 1
    ensures Join(parts, sep) == [parts[0][0]] + Join([parts[0][1..]] + parts[1..], sep)
  {
    var shorter := [parts[0][1..]] + parts[1..];
    assert parts[0] == [parts[0][0]] + parts[0][1..];
    if |parts| > 1 {
      assert shorter[1..] == parts[1..];
    }
  }

  /** The characters `secrets.token_hex` and `hexdigest` produce. */
  predicate IsHexDigit(c: char)
  {
    '0' <= c <= '9' || 'a' <= c <= 'f'
  }

  predicate IsHex(s: string)
  {
    forall i :: 0 <= i < |s| ==> IsHexDigit(s[i])
  }

  /** `secrets.token_hex(16)`: 16 random bytes as 32 hexadecimal digits. */
  predicate IsTokenHex16(salt: string)
  {
    |salt| == 32 && IsHex(salt)
  }

  /** `hashlib.sha256(...).hexdigest()`: 64 hexadecimal digits. */
  predicate IsSha256Digest(digest: string)
  {
    |digest| == 64 && IsHex(digest)
  }

  lemma HexHasNoSeparator(s: string)
    requires IsHex(s)
    ensures Separator !in s
  {
  }

  /**
   * `hash_password`: the salt, a colon, and the digest of password followed by
   * salt. `HashedSplits` and `VerifyHashed` show that the text is read back.
   */
  function HashPassword(password: string, salt: string, digest: string -> string): (stored: string)
    ensures |stored| == |salt| + 1 + |digest(password + salt)|
    ensures stored[..|salt|] == salt && stored[|salt|] == Separator
    ensures stored[|salt| + 1..] == digest(password + salt)
  {
    salt + [Separator] + digest(password + salt)
  }

  /**
   * When neither the salt nor the digest contains a colon, the stored text has
   * exactly one colon and splits back into the salt and the digest.
   */
  lemma HashedSplits(password: string, salt: string, digest: string -> string)
    requires Separator !in salt && Separator !in digest(password + salt)
    ensures multiset(HashPassword(password, salt, digest))[Separator] == 1
    ensures Split(HashPassword(password, salt, digest), Separator) == [salt, digest(password + salt)]
  {
    SplitJoin([salt, digest(password + salt)], Separator);
    SplitCount(HashPassword(password, salt, digest), Separator);
  }

  /**
   * `verify_password`: a stored text that does not split into exactly two
   * pieces at colons is rejected (the source's `ValueError` path); otherwise the
   * first piece is the salt and the second the expected digest.
   */
  function VerifyPassword(plain: string, stored: string, digest: string -> string): (ok: bool)
    ensures multiset(stored)[Separator] != 1 ==> !ok
    ensures ok ==> exists salt: string, hash: string ::
      stored == salt + [Separator] + hash && Separator !in salt && Separator !in hash && digest(plain + salt) == hash
  {
    var parts := Split(stored, Separator);
    SplitCount(stored, Separator);
    if |parts| != 2 then false
    else
      JoinSplit(stored, Separator);
      assert Join(parts, Separator) == parts[0] + [Separator] + parts[1];
      digest(plain + parts[0]) == parts[1]
  }

  /**
   * Both directions of `verify_password`: the stored text is accepted exactly
   * when it is a colon-free salt, one colon, and a colon-free digest that
   * equals the digest of the candidate followed by that salt.
   */
  lemma VerifyPasswordIff(plain: string, stored: string, digest: string -> string)
    ensures VerifyPassword(plain, stored, digest) <==>
      exists salt: string, hash: string ::
        stored == salt + [Separator] + hash && Separator !in salt && Separator !in hash && digest(plain + salt) == hash
  {
    if exists salt: string, hash: string ::
        stored == salt + [Separator] + hash && Separator !in salt && Separator !in hash && digest(plain + salt) == hash {
      var salt: string, hash: string :|
        stored == salt + [Separator] + hash && Separator !in salt && Separator !in hash && digest(plain + salt) == hash;
      SplitJoin([salt, hash], Separator);
      assert Join([salt, hash], Separator) == stored;
    }
  }

  /**
   * The round trip: a stored password made by `HashPassword` accepts exactly
   * the passwords whose salted digest equals that of the original. In
   * particular the original password is always accepted.
   */
  lemma VerifyHashed(password: string, candidate: string, salt: string, digest: string -> string)
    requires Separator !in salt && Separator !in digest(password + salt)
    ensures VerifyPassword(candidate, HashPassword(password, salt, digest), digest)
        <==> digest(candidate + salt) == digest(password + salt)
  {
    HashedSplits(password, salt, digest);
  }

  /** Whenever the salt and digest are colon-free, a password verifies against its own hash. */
  lemma OwnHashVerifies(password: string, salt: string, digest: string -> string)
    ensures Separator !in salt && Separator !in digest(password + salt) ==>
      VerifyPassword(password, HashPassword(password, salt, digest), digest)
  {
    if Separator !in salt && Separator !in digest(password + salt) {
      VerifyHashed(password, password, salt, digest);
    }
  }

  /** With the salt and digest the source produces (hexadecimal), the original password verifies. */
  lemma VerifyOwnPassword(password: string, salt: string, digest: string -> string)
    requires IsTokenHex16(salt) && IsSha256Digest(digest(password + salt))
    ensures VerifyPassword(password, HashPassword(password, salt, digest), digest)
  {
    HexHasNoSeparator(salt);
    HexHasNoSeparator(digest(password + salt));
    VerifyHashed(password, password, salt, digest);
  }
}
