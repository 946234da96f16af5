/** What several modules share. */
module Common {

  datatype Option<+T> = None | Some(value: T)

  /** In the nanoseconds of Go's time.Duration. */
  const MILLISECOND := 1_000_000

  /** Go's integer division truncates toward zero. */
  function GoDiv(a: int, b: int): (q: int)
    requires b > 0
    ensures a >= 0 ==> b * q <= a < b * q + b
    ensures a <= 0 ==> b * q - b < a <= b * q
  {
    if a >= 0 then a / b else -((-a) / b)
  }

  /** k is the first position of the largest element. */
  ghost predicate FirstMax(s: seq<real>, k: nat) {
    && k < |s|
    && (forall j :: 0 <= j < |s| ==> s[j] <= s[k])
    && (forall j :: 0 <= j < k ==> s[j] < s[k])
  }

  lemma FirstMaxStep(s: seq<real>, i: nat, k: nat)
    requires i < |s| && (i > 0 ==> FirstMax(s[..i], k))
    ensures i == 0 || s[i] > s[k] ==> FirstMax(s[..i + 1], i)
    ensures i > 0 && s[i] <= s[k] ==> FirstMax(s[..i + 1], k)
  {
    assert i > 0 ==> forall j :: 0 <= j < i ==> s[..i][j] == s[..i + 1][j];
  }
}
