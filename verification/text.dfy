/** String helpers of the client: Python truthiness of an optional string,
    `split('/')[-1]`, lower-casing, the `in` operator on strings and
    slicing with `[:n]`. */
module Text {
  import opened Options

  /** Python's truth value of a field that is either `None` or a string:
      both `None` and `''` are false. */
  predicate Present(o: Option<string>) {
    o.Some? && o.value != ""
  }

  predicate EndsWith(s: string, t: string) {
    |t| <= |s| && s[|s| - |t|..] == t
  }

  /** The last '/'-separated piece of `s`: the text after the last '/', or all of `s` when it
      holds no '/'. The result is a '/'-free suffix of `s` that reaches back
      either to the start of `s` or to a '/'. */
  function LastSegment(s: string): (r: string)
    ensures EndsWith(s, r)
    ensures '/' !in r
    ensures r == s || s[|s| - |r| - 1] == '/'
    decreases |s|
  {
    if s == [] then []
    else if s[|s| - 1] == '/' then []
    else LastSegment(s[..|s| - 1]) + [s[|s| - 1]]
  }

  /** A '/'-free suffix leaves no '/' in the last `|t|` positions of `s`. */
  lemma SlashFreeTail(s: string, t: string)
    requires EndsWith(s, t) && '/' !in t
    ensures forall i :: |s| - |t| <= i < |s| ==> s[i] != '/'
  {
    forall i | |s| - |t| <= i < |s|
      ensures s[i] != '/'
    {
      assert s[i] == t[i - (|s| - |t|)];
    }
  }

  /** The three properties of `LastSegment` determine it: any '/'-free suffix
      that starts at the beginning of `s` or right after a '/' is the last
      segment. */
  lemma LastSegmentUnique(s: string, r: string)
    requires EndsWith(s, r) && '/' !in r
    requires r == s || s[|s| - |r| - 1] == '/'
    ensures r == LastSegment(s)
  {
    var q := LastSegment(s);
    SlashFreeTail(s, q);
    SlashFreeTail(s, r);
    if r != s {
      assert s[|s| - |r| - 1] == '/';
      assert |q| <= |r|;
    }
    if q != s {
      assert s[|s| - |q| - 1] == '/';
      assert |r| <= |q|;
    }
    assert |r| == |q|;
    assert r == s[|s| - |r|..] == q;
  }

  /** Splitting a path built as `prefix + "/" + segment` gives back the segment. */
  lemma LastSegmentOfPath(prefix: string, segment: string)
    requires '/' !in segment
    ensures LastSegment(prefix + "/" + segment) == segment
  {
    var s := prefix + "/" + segment;
    assert s[|s| - |segment|..] == segment;
    if segment != s {
      assert s[|s| - |segment| - 1] == '/';
    }
    LastSegmentUnique(s, segment);
  }

  /** The last segment is empty exactly when `s` is empty or ends in '/'. */
  lemma LastSegmentEmpty(s: string)
    ensures LastSegment(s) == "" <==> s == "" || s[|s| - 1] == '/'
  {
  }

  /** A string without '/' is its own last segment. */
  lemma LastSegmentOfPlain(s: string)
    requires '/' !in s
    ensures LastSegment(s) == s
  {
    LastSegmentUnique(s, s);
  }

  /** Python's `s[:n]`. */
  function Take(s: string, n: nat): (r: string)
    ensures |r| == if |s| <= n then |s| else n
    ensures r == s[..|r|]
  {
    if |s| <= n then s else s[..n]
  }

  /** `str.lower()` on the ASCII letters; other characters are kept. */
  function LowerChar(c: char): (r: char)
    ensures 'A' <= c <= 'Z' ==> 'a' <= r <= 'z'
    ensures !('A' <= c <= 'Z') ==> r == c
  {
    if 'A' <= c <= 'Z' then (c as int - 'A' as int + 'a' as int) as char else c
  }

  function Lower(s: string): (r: string)
    ensures |r| == |s|
    ensures forall i :: 0 <= i < |s| ==> r[i] == LowerChar(s[i])
  {
    seq(|s|, i requires 0 <= i < |s| => LowerChar(s[i]))
  }

  lemma LowerIdempotent(s: string)
    ensures Lower(Lower(s)) == Lower(s)
  {
  }

  /** `q` occurs in `s` starting at index `i`. */
  predicate OccursAt(s: string, q: string, i: nat) {
    i + |q| <= |s| && s[i..i + |q|] == q
  }

  /** Python's `q in s` on strings. */
  predicate Contains(s: string, q: string) {
    exists i :: 0 <= i <= |s| - |q| && OccursAt(s, q, i)
  }

  lemma EmptyContained(s: string)
    ensures Contains(s, "")
  {
    assert OccursAt(s, "", 0);
  }
}
