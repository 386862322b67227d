/**
 * Extraction of an identifier from a request path: the handlers call
 * `strings.Replace(path, prefix, "", 1)`, which deletes the FIRST occurrence of
 * `prefix` wherever it is in the path, not only at its start.
 */
module PathIds {

  /** `sub` occurs in `s` starting at position `i`. */
  predicate OccursAt(s: string, sub: string, i: nat) {
    i + |sub| <= |s| && s[i..i + |sub|] == sub
  }

  /** The position of the first occurrence of `sub` in `s`, or -1 when there is none. */
  function Index(s: string, sub: string): (i: int)
    ensures i == -1 || (0 <= i && OccursAt(s, sub, i))
    ensures i == -1 ==> forall j: nat :: !OccursAt(s, sub, j)
    ensures forall j: nat :: j < i ==> !OccursAt(s, sub, j)
    decreases |s|
  {
    if |sub| > |s| then -1
    else if s[..|sub|] == sub then 0
    else
      var k := Index(s[1..], sub);
      assert forall j: nat :: 1 <= j ==> (OccursAt(s, sub, j) <==> OccursAt(s[1..], sub, j - 1)) by {
        forall j: nat | 1 <= j ensures OccursAt(s, sub, j) <==> OccursAt(s[1..], sub, j - 1) {
          if j + |sub| <= |s| {
            assert s[1..][j - 1..j - 1 + |sub|] == s[j..j + |sub|];
          }
        }
      }
      assert !OccursAt(s, sub, 0);
      if k == -1 then -1 else k + 1
  }

  /**
   * `strings.Replace(s, prefix, "", 1)`: `s` without the first occurrence of
   * `prefix`. A path that starts with the prefix yields exactly the rest of it.
   */
  function StripFirst(s: string, prefix: string): (r: string)
    ensures r == s || |r| == |s| - |prefix|
    ensures |prefix| <= |s| && s[..|prefix|] == prefix ==> r == s[|prefix|..]
  {
    var i := Index(s, prefix);
    if i < 0 then s else s[..i] + s[i + |prefix|..]
  }

  /** Round trip: the identifier placed after the prefix is the identifier extracted. */
  lemma StripRoundTrip(prefix: string, id: string)
    ensures StripFirst(prefix + id, prefix) == id
  {
    assert (prefix + id)[..|prefix|] == prefix;
    assert (prefix + id)[|prefix|..] == id;
  }

  /** A path without the prefix anywhere in it is returned unchanged. */
  lemma StripAbsent(s: string, prefix: string)
    requires forall j: nat :: !OccursAt(s, prefix, j)
    ensures StripFirst(s, prefix) == s
  {
  }

  /**
   * When the prefix first occurs at `i`, exactly that occurrence is cut out:
   * what precedes it and what follows it are kept, in order.
   */
  lemma StripFirstOccurrence(s: string, prefix: string, i: nat)
    requires OccursAt(s, prefix, i)
    requires forall j: nat :: j < i ==> !OccursAt(s, prefix, j)
    ensures StripFirst(s, prefix) == s[..i] + s[i + |prefix|..]
    ensures |StripFirst(s, prefix)| == |s| - |prefix|
  {
    var k := Index(s, prefix);
    assert k != -1;
    assert k == i;
  }
}
