/** `BitsInMask`: the number of bits in a netmask, from a 32-bit word and from bytes in network order.  The
    prefix masks for which it is meant are those of section 3.1 of RFC 4632.

    Words and bytes are sequences of bits, the most significant first: `<<= 1` drops the first and appends a
    zero. */
module NetMask {

  type Bits = seq<bool>

  function Constant(n: nat, b: bool): Bits { seq(n, _ => b) }

  function Prefix(n: nat, k: nat): Bits { seq(n, i => i < k) }

  /** The one bits of `s` reach exactly to `b`. */
  predicate Reach(s: Bits, b: nat) {
    b <= |s| && (b > 0 ==> s[b - 1]) && forall i :: b <= i < |s| ==> !s[i]
  }

  /** How far the last one bit reaches. */
  function LastOne(s: Bits): (b: nat)
    ensures Reach(s, b) && forall c :: Reach(s, c) ==> c == b
  {
    if s == [] then 0
    else if s[|s| - 1] then |s|
    else
      assert forall c :: Reach(s, c) ==> Reach(s[..|s| - 1], c);
      LastOne(s[..|s| - 1])
  }

  // ---------- The loops ----------

  /** The 32-bit form, for words of any width; also the inner loop of the byte form. */
  method BitsInWord(word: Bits) returns (bits: nat)
    ensures bits == LastOne(word)
  {
    bits := 0;
    var mask := word;
    while true in mask
      invariant bits <= |word| && mask == word[bits..] + Constant(bits, false)
      invariant bits > 0 ==> true in word[bits - 1..]
      decreases |word| - bits
    {
      assert true in word[bits..];
      bits := bits + 1;
      mask := mask[1..] + [false];
    }
    assert forall i :: bits <= i < |word| ==> word[i] == mask[i - bits];
    assert bits > 0 ==> word[bits - 1..] == [word[bits - 1]] + word[bits..];
    assert Reach(word, bits);
  }

  predicate IsBytes(mask: seq<Bits>) { forall i :: 0 <= i < |mask| ==> |mask[i]| == 8 }

  /** Full bytes count eight each; the first other byte counts up to its last one bit, and ends the count. */
  function BytesLength(mask: seq<Bits>): nat {
    if mask == [] then 0
    else if false !in mask[0] then 8 + BytesLength(mask[1..])
    else LastOne(mask[0])
  }

  method BitsInBytes(mask: seq<Bits>) returns (bits: nat)
    requires IsBytes(mask)
    ensures bits == BytesLength(mask)
  {
    bits := 0;
    var i := 0;
    while i < |mask|
      invariant i <= |mask| && bits + BytesLength(mask[i..]) == BytesLength(mask)
    {
      assert mask[i..][0] == mask[i] && mask[i..][1..] == mask[i + 1..];
      if false in mask[i] {
        var more := BitsInWord(mask[i]);
        bits := bits + more;
        return;
      }
      i, bits := i + 1, bits + 8;
    }
  }

  // ---------- Prefix masks ----------

  function Joined(mask: seq<Bits>): Bits { if mask == [] then [] else mask[0] + Joined(mask[1..]) }

  /** The `n` bytes of a mask with `k` leading ones. */
  function PrefixBytes(n: nat, k: nat): seq<Bits>
    requires k <= 8 * n
  {
    if n == 0 then []
    else [Prefix(8, k)] + PrefixBytes(n - 1, if k < 8 then 0 else k - 8)
  }

  /** They are the bytes of the prefix mask of 8n bits. */
  lemma {:induction false} PrefixBytesJoined(n: nat, k: nat)
    requires k <= 8 * n
    ensures IsBytes(PrefixBytes(n, k)) && |PrefixBytes(n, k)| == n
    ensures Joined(PrefixBytes(n, k)) == Prefix(8 * n, k)
  {
    if n > 0 {
      var rest := if k < 8 then 0 else k - 8;
      PrefixBytesJoined(n - 1, rest);
      assert Prefix(8 * n, k) == Prefix(8, k) + Prefix(8 * (n - 1), rest);
    }
  }

  /** The byte form returns k for the mask of k leading ones, whatever the number of bytes. */
  lemma {:induction false} PrefixMaskHasItsLength(n: nat, k: nat)
    requires k <= 8 * n
    ensures BytesLength(PrefixBytes(n, k)) == k
  {
    if n > 0 {
      PrefixMaskHasItsLength(n - 1, if k < 8 then 0 else k - 8);
      if k < 8 {
        assert !Prefix(8, k)[k];
        assert Reach(Prefix(8, k), k);
      }
    }
  }

  predicate Contiguous(word: Bits) { forall i, j :: 0 <= i < j < |word| && word[j] ==> word[i] }

  /** So does the word form, and no other word is contiguous. */
  lemma ContiguousIff(word: Bits)
    ensures Contiguous(word) <==> word == Prefix(|word|, LastOne(word))
  {
    assert forall i :: 0 <= i < |word| ==> Prefix(|word|, LastOne(word))[i] == (i < LastOne(word));
  }

  // ---------- The two forms compared ----------

  lemma LastOneJoined(a: Bits, b: Bits)
    ensures LastOne(a + b) == if true in b then |a| + LastOne(b) else LastOne(a)
  {
    var s := a + b;
    if true in b {
      var c := LastOne(b);
      assert c > 0 && s[|a| + c - 1] == b[c - 1];
      assert forall i :: |a| + c <= i < |s| ==> s[i] == b[i - |a|];
      assert Reach(s, |a| + c);
    } else {
      assert forall i :: 0 <= i < |a| ==> s[i] == a[i];
      assert forall i :: |a| <= i < |s| ==> s[i] == b[i - |a|];
      assert Reach(s, LastOne(a));
    }
  }

  /** Nothing follows the first byte that is not full. */
  predicate EndsInZeros(mask: seq<Bits>) {
    if mask == [] then true
    else if false !in mask[0] then EndsInZeros(mask[1..])
    else true !in Joined(mask[1..])
  }

  lemma {:induction false} ZerosHaveNoLength(mask: seq<Bits>)
    requires IsBytes(mask) && true !in Joined(mask)
    ensures BytesLength(mask) == 0 && EndsInZeros(mask)
  {
    if mask != [] {
      assert forall b :: b in mask[0] ==> b in Joined(mask);
      assert forall b :: b in Joined(mask[1..]) ==> b in Joined(mask);
      assert mask[0][0] in mask[0];
      assert Reach(mask[0], 0);
    }
  }

  /** The two forms agree exactly on the masks where nothing follows the first byte that is not full. */
  lemma {:induction false} FormsAgreeIff(mask: seq<Bits>)
    requires IsBytes(mask)
    ensures BytesLength(mask) == LastOne(Joined(mask)) <==> EndsInZeros(mask)
  {
    if mask != [] {
      var rest := Joined(mask[1..]);
      LastOneJoined(mask[0], rest);
      if false !in mask[0] {
        FormsAgreeIff(mask[1..]);
        if true !in rest {
          ZerosHaveNoLength(mask[1..]);
          assert mask[0][7] in mask[0];
          assert Reach(mask[0], 8);
        }
      } else if true in rest {
        assert LastOne(rest) > 0;
      }
    }
  }

  lemma {:induction false} ContiguousEndsInZeros(mask: seq<Bits>)
    requires IsBytes(mask) && Contiguous(Joined(mask))
    ensures EndsInZeros(mask)
  {
    if mask != [] {
      var word, rest := Joined(mask), Joined(mask[1..]);
      assert forall i :: 0 <= i < |rest| ==> rest[i] == word[8 + i];
      if false !in mask[0] {
        ContiguousEndsInZeros(mask[1..]);
      } else {
        var k :| 0 <= k < 8 && !mask[0][k];
        assert !word[k];
      }
    }
  }

  /** So they agree on every contiguous mask, and return its length. */
  lemma FormsAgreeOnContiguous(mask: seq<Bits>)
    requires IsBytes(mask) && Contiguous(Joined(mask))
    ensures BytesLength(mask) == LastOne(Joined(mask))
    ensures Joined(mask) == Prefix(|Joined(mask)|, BytesLength(mask))
  {
    ContiguousEndsInZeros(mask);
    FormsAgreeIff(mask);
    ContiguousIff(Joined(mask));
  }

  /** For example they differ on the two bytes 0x00 0x80. */
  lemma FormsDiffer(mask: seq<Bits>)
    requires |mask| == 2 && mask[0] == Constant(8, false) && mask[1] == [true] + Constant(7, false)
    ensures BytesLength(mask) == 0 && LastOne(Joined(mask)) == 9
  {
    var rest := mask[1..];
    assert rest[1..] == [] && rest[0] == mask[1];
    assert Joined(rest) == mask[1] + [] == mask[1];
    assert false in mask[0] by { assert mask[0][0] == false; }
    assert Reach(mask[0], 0);
    assert Reach(Joined(mask), 9);
  }
}
