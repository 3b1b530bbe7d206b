/**
 * Password derivation: HMAC-SHA1 keyed with the master password over the
 * domain followed by the salt, Base64-encoded, cut to the requested length.
 * The HMAC itself is not modelled: it is a parameter, any function from
 * (key, message) to a 20-byte digest.
 */
module Derive {
  import opened Wrappers
  import opened Base64

  /** A SHA-1 digest is 20 bytes. */
  type Digest = s: seq<byte> | |s| == 20
    witness [0, 0, 0, 0, 0, 0, 0, 0, 0, 0, 0, 0, 0, 0, 0, 0, 0, 0, 0, 0]

  /** HMAC-SHA1 as a function of the key and the message. */
  type Hmac = (string, string) -> Digest

  /** Length of the Base64 encoding of a digest: 4 * ceil(20 / 3). */
  const EncodedLength: nat := 28

  /** The default password length. */
  const DefaultLength: int := 14

  /**
   * gen_pwd(data, key): the Base64 text of the digest. It has 27 alphabet
   * characters followed by one '=', and it determines the digest.
   */
  function GenPwd(mac: Hmac, data: string, key: string): (r: string)
    ensures |r| == EncodedLength
    ensures forall i | 0 <= i < EncodedLength - 1 :: IsAlphabetChar(r[i])
    ensures r[EncodedLength - 1] == Pad
    ensures Decode(r) == Some(mac(key, data))
  {
    var digest := mac(key, data);
    DecodeEncode(digest);
    EncodeAlphabet(digest);
    assert Padding(|digest|) == 1 && |Encode(digest)| == EncodedLength;
    Encode(digest)
  }

  /** Go's s[:n]; the slice panics unless 0 <= n <= len(s). */
  function Prefix(s: string, n: int): (r: string)
    requires 0 <= n <= |s|
    ensures |r| == n && r <= s
  {
    s[..n]
  }

  /** The password the program emits: the first passLength characters of gen_pwd(domain + salt, master). */
  function Password(mac: Hmac, domain: string, salt: string, master: string, passLength: int): (r: string)
    requires 0 <= passLength <= EncodedLength
    ensures |r| == passLength
    ensures r <= GenPwd(mac, domain + salt, master)
    ensures forall i | 0 <= i < |r| :: if i < EncodedLength - 1 then IsAlphabetChar(r[i]) else r[i] == Pad
  {
    Prefix(GenPwd(mac, domain + salt, master), passLength)
  }

  /** The domain and the salt enter the derivation only through their concatenation. */
  lemma SplitInsensitive(mac: Hmac, d1: string, s1: string, d2: string, s2: string, master: string, n: int)
    requires d1 + s1 == d2 + s2
    requires 0 <= n <= EncodedLength
    ensures Password(mac, d1, s1, master, n) == Password(mac, d2, s2, master, n)
  {
  }

  /** Two different (domain, salt) splits of one string derive the same password. */
  lemma SplitsCollide(mac: Hmac, master: string, n: int)
    requires 0 <= n <= EncodedLength
    ensures ("ab", "c") != ("a", "bc")
    ensures Password(mac, "ab", "c", master, n) == Password(mac, "a", "bc", master, n)
  {
    assert "ab" + "c" == "a" + "bc";
  }

  /** A shorter password is a prefix of a longer one for the same inputs. */
  lemma PasswordPrefixes(mac: Hmac, domain: string, salt: string, master: string, n1: int, n2: int)
    requires 0 <= n1 <= n2 <= EncodedLength
    ensures Password(mac, domain, salt, master, n1) <= Password(mac, domain, salt, master, n2)
  {
    var g := GenPwd(mac, domain + salt, master);
    assert g[..n2][..n1] == g[..n1];
  }

  /** The full-length password determines the digest it was cut from. */
  lemma FullPasswordDeterminesDigest(mac: Hmac, d1: string, s1: string, m1: string, d2: string, s2: string, m2: string)
    requires Password(mac, d1, s1, m1, EncodedLength) == Password(mac, d2, s2, m2, EncodedLength)
    ensures mac(m1, d1 + s1) == mac(m2, d2 + s2)
  {
    EncodeInjective(mac(m1, d1 + s1), mac(m2, d2 + s2));
  }
}
