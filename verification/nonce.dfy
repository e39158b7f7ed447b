/**
 `generateNonce` and `clearOauthNonce`. `Math.random` is replaced by a
 sequence of draws, each already scaled to an index in `[0, 62)`.
 */
module Nonce {
  import opened Storage

  const UpperRun: string := "ABCDEFGHIJKLMNOPQRSTUVWXYZ"
  const LowerRun: string := "abcdefghijklmnopqrstuvwxyz"
  const DigitRun: string := "0123456789"

  /** The characters of `generateNonce`: the three runs above, in this order. */
  const Alphabet: string := UpperRun + LowerRun + DigitRun

  /** The default `length` of `generateNonce`, the only one the flow uses. */
  const NonceLength: nat := 32

  /** `draws` supplies one in-range index per nonce character. */
  predicate ValidDraws(draws: seq<int>, length: nat) {
    |draws| == length && forall i :: 0 <= i < |draws| ==> 0 <= draws[i] < |Alphabet|
  }

  /** The nonce the given draws produce. */
  function NonceOf(draws: seq<int>): (nonce: string)
    requires ValidDraws(draws, |draws|)
    ensures |nonce| == |draws|
    ensures forall i :: 0 <= i < |draws| ==> nonce[i] == Alphabet[draws[i]]
  {
    seq(|draws|, i requires 0 <= i < |draws| => Alphabet[draws[i]])
  }

  /** `generateNonce(length)`: appends one alphabet character per draw. */
  method GenerateNonce(draws: seq<int>, length: nat) returns (nonce: string)
    requires ValidDraws(draws, length)
    ensures |nonce| == length
    ensures forall i :: 0 <= i < length ==> nonce[i] == Alphabet[draws[i]]
    ensures nonce == NonceOf(draws)
  {
    nonce := "";
    var i := 0;
    while i < length
      invariant 0 <= i <= length
      invariant |nonce| == i
      invariant forall k :: 0 <= k < i ==> nonce[k] == Alphabet[draws[k]]
    {
      nonce := nonce + [Alphabet[draws[i]]];
      i := i + 1;
    }
  }

  /** The position of an alphanumeric character in `Alphabet`. */
  function IndexOfChar(c: char): int {
    if 'A' <= c <= 'Z' then c as int - 'A' as int
    else if 'a' <= c <= 'z' then 26 + (c as int - 'a' as int)
    else if '0' <= c <= '9' then 52 + (c as int - '0' as int)
    else -1
  }

  /** Every alphabet character is at the position `IndexOfChar` computes, so all 62 are distinct. */
  lemma AlphabetIndexed()
    ensures |Alphabet| == 62
    ensures forall i :: 0 <= i < |Alphabet| ==> IndexOfChar(Alphabet[i]) == i
  {
    RunsAscend();
  }

  lemma RunsAscend()
    ensures forall i :: 0 <= i < |UpperRun| ==> UpperRun[i] as int == 'A' as int + i
    ensures forall i :: 0 <= i < |LowerRun| ==> LowerRun[i] as int == 'a' as int + i
    ensures forall i :: 0 <= i < |DigitRun| ==> DigitRun[i] as int == '0' as int + i
  {
  }

  /** Different draws give different nonces: the nonce carries all the randomness drawn. */
  lemma NonceOfInjective(a: seq<int>, b: seq<int>)
    requires ValidDraws(a, |a|) && ValidDraws(b, |b|)
    requires NonceOf(a) == NonceOf(b)
    ensures a == b
  {
    AlphabetIndexed();
    assert forall i :: 0 <= i < |a| ==> a[i] == IndexOfChar(NonceOf(a)[i]);
  }

  /** `clearOauthNonce`: removes `oauthNonce`; a failing removal is swallowed and changes nothing. */
  function ClearOauthNonce(s: Store, removalFails: bool): (t: Store)
    ensures !removalFails ==> NonceKey !in t && AgreeOutside(s, t, {NonceKey})
    ensures removalFails ==> t == s
  {
    if removalFails then s else RemoveKeys(s, {NonceKey})
  }
}
