/** Java's `String.trim()` and the blank test `s.trim().isEmpty()` that
    postNotification applies to its raw-parameters argument. `trim` removes
    every leading and trailing character whose code is at most U+0020 (space
    and the ASCII control characters). */
module JavaText {

  /** The characters `String.trim()` removes. */
  predicate IsTrimmed(c: char) {
    c <= ' '
  }

  /** Every character of s is one that `trim` removes. */
  predicate IsBlank(s: string) {
    forall i :: 0 <= i < |s| ==> IsTrimmed(s[i])
  }

  /** The index of the first character `trim` keeps, or |s| if there is none. */
  function TrimStart(s: string): (k: nat)
    ensures k <= |s|
    ensures forall i :: 0 <= i < k ==> IsTrimmed(s[i])
    ensures k < |s| ==> !IsTrimmed(s[k])
  {
    if |s| == 0 || !IsTrimmed(s[0]) then 0 else 1 + TrimStart(s[1..])
  }

  /** One past the index of the last character `trim` keeps, or 0 if there is none. */
  function TrimEnd(s: string): (k: nat)
    ensures k <= |s|
    ensures forall i :: k <= i < |s| ==> IsTrimmed(s[i])
    ensures 0 < k ==> !IsTrimmed(s[k - 1])
  {
    if |s| == 0 || !IsTrimmed(s[|s| - 1]) then |s| else TrimEnd(s[..|s| - 1])
  }

  /** `s.trim()`. */
  function Trim(s: string): (r: string)
    ensures |r| == 0 <==> IsBlank(s)
    ensures |r| > 0 ==> !IsTrimmed(r[0]) && !IsTrimmed(r[|r| - 1])
    ensures TrimStart(s) + |r| <= |s| && r == s[TrimStart(s)..TrimStart(s) + |r|]
    ensures forall i :: TrimStart(s) + |r| <= i < |s| ==> IsTrimmed(s[i])
  {
    var a, b := TrimStart(s), TrimEnd(s);
    if a == |s| then "" else s[a..b]
  }

  /** Trimming a trimmed string changes nothing. */
  lemma TrimIdempotent(s: string)
    ensures Trim(Trim(s)) == Trim(s)
  {
    var t := Trim(s);
    if |t| > 0 {
      assert TrimStart(t) == 0;
      assert TrimEnd(t) == |t|;
    }
  }
}
