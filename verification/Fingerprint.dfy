/** The input a fingerprint hashes (crypto/fingerprint.go): each part behind its 8-byte
    big-endian length, so that no two lists of parts feed the same bytes. */
module FingerprintInput {
  import opened Basics
  import opened Base64

  const LENGTH_SIZE := 8

  function Power(k: nat): (p: nat)
    ensures p > 0
  {
    if k == 0 then 1 else 256 * Power(k - 1)
  }

  /** The low k bytes of n, most significant first. */
  function BigEndian(n: nat, k: nat): (s: Bytes)
    ensures |s| == k
  {
    if k == 0 then [] else BigEndian(n / 256, k - 1) + [n % 256]
  }

  function Number(s: Bytes): nat {
    if s == [] then 0 else Number(s[..|s| - 1]) * 256 + s[|s| - 1]
  }

  lemma {:induction false} NumberRoundTrip(n: nat, k: nat)
    requires n < Power(k)
    ensures Number(BigEndian(n, k)) == n
  {
    if k > 0 {
      NumberRoundTrip(n / 256, k - 1);
      assert BigEndian(n, k)[..k - 1] == BigEndian(n / 256, k - 1);
    }
  }

  /** binary.BigEndian.PutUint64, a byte at a time from the low end. */
  method PutUint64(buffer: array<Byte>, n: nat)
    requires buffer.Length == LENGTH_SIZE
    modifies buffer
    ensures buffer[..] == BigEndian(n, LENGTH_SIZE)
  {
    var rest, i := n, LENGTH_SIZE;
    while i > 0
      invariant 0 <= i <= LENGTH_SIZE
      invariant BigEndian(n, LENGTH_SIZE) == BigEndian(rest, i) + buffer[i..]
    {
      i := i - 1;
      buffer[i] := rest % 256;
      assert buffer[i..] == [rest % 256] + buffer[i + 1..];
      rest := rest / 256;
    }
  }

  function Framed(part: Bytes): Bytes {
    BigEndian(|part|, LENGTH_SIZE) + part
  }

  function Input(parts: seq<Bytes>): Bytes
    decreases |parts|
  {
    if parts == [] then [] else Framed(parts[0]) + Input(parts[1..])
  }

  /** fingerprint's loop: what the running hash has been fed. */
  method Feed(parts: seq<Bytes>) returns (input: Bytes)
    ensures input == Input(parts)
  {
    var buffer := new Byte[LENGTH_SIZE](_ => 0);
    input := [];
    for i := 0 to |parts|
      invariant Input(parts) == input + Input(parts[i..])
    {
      assert parts[i..][0] == parts[i] && parts[i..][1..] == parts[i + 1..];
      PutUint64(buffer, |parts[i]|);
      assert input + (Framed(parts[i]) + Input(parts[i + 1..])) == input + buffer[..] + parts[i] + Input(parts[i + 1..]);
      input := input + buffer[..] + parts[i];
    }
  }

  /** Reads the parts back. */
  function Parts(input: Bytes): Option<seq<Bytes>>
    decreases |input|
  {
    if input == [] then Some([])
    else if |input| < LENGTH_SIZE then None
    else
      var n := Number(input[..LENGTH_SIZE]);
      if LENGTH_SIZE + n > |input| then None
      else
        var rest := Parts(input[LENGTH_SIZE + n..]);
        if rest.None? then None else Some([input[LENGTH_SIZE..LENGTH_SIZE + n]] + rest.value)
  }

  /** Every part is shorter than 2^64 bytes. */
  ghost predicate Representable(parts: seq<Bytes>) {
    forall i :: 0 <= i < |parts| ==> |parts[i]| < Power(LENGTH_SIZE)
  }

  lemma PowerOfEight()
    ensures Power(LENGTH_SIZE) == 0x1_0000_0000_0000_0000
  {
    assert Power(2) == 0x1_0000;
    assert Power(4) == 0x1_0000_0000;
    assert Power(6) == 0x1_0000_0000_0000;
  }

  lemma {:induction false} PartsOfInput(parts: seq<Bytes>)
    requires Representable(parts)
    ensures Parts(Input(parts)) == Some(parts)
    decreases |parts|
  {
    if parts != [] {
      var part, rest := parts[0], parts[1..];
      PartsOfInput(rest);
      NumberRoundTrip(|part|, LENGTH_SIZE);
      var input := Input(parts);
      assert input == BigEndian(|part|, LENGTH_SIZE) + part + Input(rest);
      assert input[..LENGTH_SIZE] == BigEndian(|part|, LENGTH_SIZE);
      assert input[LENGTH_SIZE..LENGTH_SIZE + |part|] == part;
      assert input[LENGTH_SIZE + |part|..] == Input(rest);
      assert parts == [part] + rest;
    }
  }

  /** Different lists of parts never feed the hash the same bytes. */
  lemma InputInjective(a: seq<Bytes>, b: seq<Bytes>)
    requires Representable(a) && Representable(b) && Input(a) == Input(b)
    ensures a == b
  {
    PartsOfInput(a);
    PartsOfInput(b);
  }
}
