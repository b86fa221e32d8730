/** Message padding: padMessage, isValidPadding and unpadMessage. */
module Padding {
  import opened Prelude

  function Repeat(b: byte, n: nat): (r: Bytes)
    ensures |r| == n && forall i :: 0 <= i < n ==> r[i] == b
  {
    seq(n, _ => b)
  }

  /** bytes.HasSuffix */
  predicate HasSuffix(s: Bytes, suffix: Bytes) {
    |suffix| <= |s| && s[|s| - |suffix|..] == suffix
  }

  predicate IsValidPadding(plaintext: Bytes)
    requires plaintext != []
  {
    var last := plaintext[|plaintext| - 1];
    HasSuffix(plaintext, Repeat(last, last as nat))
  }

  datatype UnpadError = Empty | BadPadding

  function UnpadMessage(plaintext: Bytes, version: int): Result<Bytes, UnpadError> {
    if version == 3 then Ok(plaintext)
    else if plaintext == [] then Err(Empty)
    else if !IsValidPadding(plaintext) then Err(BadPadding)
    else Ok(plaintext[..|plaintext| - plaintext[|plaintext| - 1] as nat])
  }

  /** The pad byte: the low four bits of one random byte, with fifteen in place of zero. */
  function PadByte(random: byte): byte {
    if random % 16 == 0 then 15 else random % 16
  }

  function PadMessage(plaintext: Bytes, random: byte): Bytes {
    var pad := PadByte(random);
    plaintext + Repeat(pad, pad as nat)
  }

  /** Unpadding undoes padding, for every message and every random byte. */
  lemma UnpadUndoesPad(m: Bytes, random: byte)
    ensures UnpadMessage(PadMessage(m, random), 2) == Ok(m)
    ensures var n := |PadMessage(m, random)| - |m|; 1 <= n <= 15 && (random % 16 != 0 ==> n == (random % 16) as int)
  {
    var pad := PadByte(random);
    var padded := PadMessage(m, random);
    assert padded[|padded| - 1] == pad;
    assert padded[|padded| - pad as nat..] == Repeat(pad, pad as nat);
    assert padded[..|padded| - pad as nat] == m;
  }

  /**
    Exactly what a version other than 3 accepts: the input is the result followed by b copies of
    its last byte b.  A last byte of zero is accepted and strips nothing.
   */
  lemma UnpadAcceptsExactlyPadded(p: Bytes, version: int, m: Bytes)
    requires version != 3
    ensures UnpadMessage(p, version) == Ok(m)
       <==> p != [] && p == m + Repeat(p[|p| - 1], p[|p| - 1] as nat)
  {
    if p != [] {
      var b := p[|p| - 1];
      var pad := Repeat(b, b as nat);
      if p == m + pad {
        assert p[|p| - |pad|..] == pad && p[..|p| - |pad|] == m;
      }
      if UnpadMessage(p, version) == Ok(m) {
        assert p == p[..|p| - |pad|] + p[|p| - |pad|..];
      }
    }
  }
}
