/** The failure function of the Knuth-Morris-Pratt search. */
module Kmp {

  /** The first `b` of the first `j` characters are also the last `b` of them, and not all of them. */
  predicate IsBorder(s: seq<char>, j: nat, b: nat) {
    b < j <= |s| && s[..b] == s[j - b..j]
  }

  predicate BordersUpTo(s: seq<char>, j: nat, b: int) {
    forall c :: 0 <= c <= j && IsBorder(s, j, c) ==> c <= b
  }

  predicate LongestBorder(s: seq<char>, j: nat, b: nat) {
    IsBorder(s, j, b) && BordersUpTo(s, j, b)
  }

  /** One character more on both sides. */
  lemma BorderExtends(s: seq<char>, j: nat, b: nat)
    requires b < j < |s|
    ensures IsBorder(s, j + 1, b + 1) <==> IsBorder(s, j, b) && s[b] == s[j]
  {
    var left, right := s[..b + 1], s[j - b..j + 1];
    assert left[..b] == s[..b] && right[..b] == s[j - b..j];
    assert left == left[..b] + [s[b]] && right == right[..b] + [s[j]];
  }

  /** The shorter borders of a text are the borders of its borders. */
  lemma BorderOfBorder(s: seq<char>, j: nat, b: nat, c: nat)
    requires IsBorder(s, j, b) && c < b
    ensures IsBorder(s, j, c) <==> IsBorder(s, b, c)
  {
    assert s[j - b..j][b - c..] == s[j - c..j];
    assert s[..b][b - c..] == s[b - c..b];
  }

  /** The candidate `k` is a border of the first `j` characters (or -1), and no border of one more exceeds it. */
  predicate Candidate(s: seq<char>, j: nat, k: int) {
    && -1 <= k < j && (k >= 0 ==> IsBorder(s, j, k))
    && (j < |s| ==> BordersUpTo(s, j + 1, k + 1))
  }

  /** Accepting the candidate: it gives the longest border of one character more, and the next candidate. */
  lemma Accept(s: seq<char>, j: nat, k: int)
    requires j < |s| && Candidate(s, j, k) && (k == -1 || s[k] == s[j])
    ensures LongestBorder(s, j + 1, k + 1) && Candidate(s, j + 1, k + 1)
  {
    if k >= 0 {
      BorderExtends(s, j, k);
    }
    assert IsBorder(s, j + 1, k + 1);
    if j + 1 < |s| {
      var n := j + 2;
      forall c | 0 <= c <= n && IsBorder(s, n, c) ensures c <= k + 2 {
        if c >= 1 {
          BorderExtends(s, j + 1, c - 1);
        }
      }
    }
  }

  /** Rejecting the candidate: its own longest border is the next one to try. */
  lemma Reject(s: seq<char>, j: nat, k: nat, b: int)
    requires j < |s| && Candidate(s, j, k) && s[k] != s[j]
    requires if k == 0 then b == -1 else b >= 0 && LongestBorder(s, k, b)
    ensures b < k && Candidate(s, j, b)
  {
    if b >= 0 {
      BorderOfBorder(s, j, k, b);
    }
    var n := j + 1;
    forall c | 0 <= c <= n && IsBorder(s, n, c) ensures c <= b + 1 {
      if c >= 1 {
        BorderExtends(s, j, c - 1);
        if c - 1 < k {
          BorderOfBorder(s, j, k, c - 1);
        }
      }
    }
  }

  method GetNext(s: array<char>, len: nat, next: array<int>)
    requires len <= s.Length && len < next.Length
    modifies next
    ensures next[0] == -1
    ensures forall j :: 1 <= j <= len ==> next[j] >= 0 && LongestBorder(s[..len], j, next[j])
  {
    ghost var t := s[..len];
    var k, j := -1, 0;
    next[0] := -1;
    while j < len
      invariant 0 <= j <= len && s[..len] == t && Candidate(t, j, k)
      invariant next[0] == -1
      invariant forall i :: 1 <= i <= j ==> next[i] >= 0 && LongestBorder(t, i, next[i])
      decreases len - j, k + 1
    {
      if k == -1 || s[k] == s[j] {
        Accept(t, j, k);
        k := k + 1;
        j := j + 1;
        next[j] := k;
      } else {
        Reject(t, j, k, next[k]);
        k := next[k];
      }
    }
  }
}
