/**
 * GenerateRandomString (pkg/util/random.go): n characters, each drawn
 * uniformly from a 62-letter alphabet with crypto/rand.
 *
 * The random source is an oracle: `draw(i)` is the index crypto/rand yields
 * for character i, or None when it fails.
 */
module Random {
  import opened Streams

  /** The 62-character alphabet, written as its three runs. */
  const Lower: string := "abcdefghijklmnopqrstuvwxyz"
  const Upper: string := "ABCDEFGHIJKLMNOPQRSTUVWXYZ"
  const Digits: string := "1234567890"
  const Letters: string := Lower + Upper + Digits

  /** An index rand.Int(rand.Reader, 62) can return. */
  type LetterIndex = i: int | 0 <= i < 62

  /** The alphabet, stated independently of the constant: ASCII letters and digits. */
  predicate IsAlphanumeric(c: char) {
    'a' <= c <= 'z' || 'A' <= c <= 'Z' || '0' <= c <= '9'
  }

  /** Every letter of the alphabet is alphanumeric, and there are 62 of them. */
  lemma LettersAlphanumeric()
    ensures |Letters| == 62
    ensures forall k :: 0 <= k < |Letters| ==> IsAlphanumeric(Letters[k])
  {
    assert forall k :: 0 <= k < |Lower| ==> 'a' <= Lower[k] <= 'z';
    assert forall k :: 0 <= k < |Upper| ==> 'A' <= Upper[k] <= 'Z';
    assert forall k :: 0 <= k < |Digits| ==> '0' <= Digits[k] <= '9';
    forall k | 0 <= k < |Letters| ensures IsAlphanumeric(Letters[k]) {
      if k < 26 {
        assert Letters[k] == Lower[k];
      } else if k < 52 {
        assert Letters[k] == Upper[k - 26];
      } else {
        assert Letters[k] == Digits[k - 52];
      }
    }
  }

  /** The string the draws spell out, or the error of the first failed draw. */
  function RandomString(n: nat, draw: nat -> Option<LetterIndex>): (r: Result<string>)
    ensures r.Ok? <==> forall i :: 0 <= i < n ==> draw(i).Some?
    ensures r.Err? ==> r.error == RandomUnavailable
    ensures r.Ok? ==> |r.value| == n
    ensures r.Ok? ==> forall i :: 0 <= i < n ==> IsAlphanumeric(r.value[i])
    ensures n == 0 ==> r == Ok("")
  {
    LettersAlphanumeric();
    if forall i :: 0 <= i < n ==> draw(i).Some? then
      Ok(seq(n, (i: int) requires 0 <= i < n => Letters[draw(i).value]))
    else
      Err(RandomUnavailable)
  }

  /** Fill an n-character buffer index by index; stop at the first failed draw. */
  method GenerateRandomString(n: nat, draw: nat -> Option<LetterIndex>) returns (r: Result<string>)
    ensures r == RandomString(n, draw)
    ensures r.Ok? ==> forall i :: 0 <= i < n ==> r.value[i] == Letters[draw(i).value]
  {
    var bytes := new char[n];
    for i := 0 to n
      invariant forall j :: 0 <= j < i ==> draw(j).Some? && bytes[j] == Letters[draw(j).value]
    {
      match draw(i) {
        case None =>
          return Err(RandomUnavailable);
        case Some(k) =>
          bytes[i] := Letters[k];
      }
    }
    assert bytes[..] == seq(n, (i: int) requires 0 <= i < n => Letters[draw(i).value]);
    r := Ok(bytes[..]);
  }
}
