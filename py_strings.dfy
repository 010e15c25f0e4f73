/**
  The Python string built-ins the extraction loop relies on: `str.strip()`
  with no argument (which removes the characters `str.isspace` accepts from
  both ends) and `" ".join(...)`. `Split` is Python's `str.split(" ")`; the
  loop does not call it, it is here as the inverse against which `Join` is
  checked.
 */
module PyStrings {

  /** Python's `str.isspace` for a single character: the code points whose
      bidirectional class is WS, B or S, or whose category is Zs. */
  predicate IsSpace(c: char) {
    var n := c as int;
    || (0x09 <= n <= 0x0D)
    || (0x1C <= n <= 0x20)
    || n == 0x85
    || n == 0xA0
    || n == 0x1680
    || (0x2000 <= n <= 0x200A)
    || n == 0x2028
    || n == 0x2029
    || n == 0x202F
    || n == 0x205F
    || n == 0x3000
  }

  predicate AllSpace(s: string) {
    forall k :: 0 <= k < |s| ==> IsSpace(s[k])
  }

  /** `s.lstrip()` */
  function TrimStart(s: string): (r: string)
    ensures |r| <= |s|
    decreases |s|
  {
    if s != [] && IsSpace(s[0]) then TrimStart(s[1..]) else s
  }

  /** `lstrip` removes a whitespace prefix, and exactly the longest one. */
  lemma {:induction false} TrimStartShape(s: string)
    ensures |TrimStart(s)| <= |s| && TrimStart(s) == s[|s| - |TrimStart(s)|..]
    ensures AllSpace(s[..|s| - |TrimStart(s)|])
    ensures TrimStart(s) == [] || !IsSpace(TrimStart(s)[0])
    decreases |s|
  {
    if s != [] && IsSpace(s[0]) {
      TrimStartShape(s[1..]);
      var r := TrimStart(s);
      assert s[|s| - |r|..] == s[1..][|s| - 1 - |r|..];
      var p, p' := s[..|s| - |r|], s[1..][..|s| - 1 - |r|];
      forall k | 1 <= k < |p|
        ensures IsSpace(p[k])
      {
        assert p[k] == p'[k - 1];
      }
    }
  }

  /** `s.rstrip()` */
  function TrimEnd(s: string): (r: string)
    decreases |s|
  {
    if s != [] && IsSpace(s[|s| - 1]) then TrimEnd(s[..|s| - 1]) else s
  }

  /** `rstrip` removes a whitespace suffix, and exactly the longest one. */
  lemma {:induction false} TrimEndShape(s: string)
    ensures |TrimEnd(s)| <= |s| && TrimEnd(s) == s[..|TrimEnd(s)|]
    ensures AllSpace(s[|TrimEnd(s)|..])
    ensures TrimEnd(s) == [] || !IsSpace(TrimEnd(s)[|TrimEnd(s)| - 1])
    decreases |s|
  {
    if s != [] && IsSpace(s[|s| - 1]) {
      var s' := s[..|s| - 1];
      TrimEndShape(s');
      var r := TrimEnd(s);
      assert s[..|r|] == s'[..|r|];
      assert forall k :: |r| <= k < |s| ==> k == |s| - 1 || s[k] == s'[k];
    }
  }

  /** `s.strip()` */
  function Strip(s: string): (r: string) {
    TrimEnd(TrimStart(s))
  }

  /** How many characters `lstrip` removes. */
  function LeadingSpaces(s: string): (r: nat) {
    |s| - |TrimStart(s)|
  }

  /** The stripped text is the infix of `s` that starts after its leading
      whitespace and is followed by whitespace only, and it neither starts
      nor ends with whitespace. */
  lemma StripShape(s: string)
    ensures var i, r := LeadingSpaces(s), Strip(s);
      && i + |r| <= |s| && s[i..i + |r|] == r
      && AllSpace(s[..i]) && AllSpace(s[i + |r|..])
    ensures Strip(s) == [] || (!IsSpace(Strip(s)[0]) && !IsSpace(Strip(s)[|Strip(s)| - 1]))
  {
    var t := TrimStart(s);
    TrimStartShape(s);
    TrimEndShape(t);
    var i, r := |s| - |t|, TrimEnd(t);
    assert s[i..i + |r|] == t[..|r|];
    assert s[i + |r|..] == t[|r|..];
  }

  lemma {:induction false} TrimStartSkips(p: string, t: string)
    requires AllSpace(p)
    requires t == [] || !IsSpace(t[0])
    ensures TrimStart(p + t) == t
    decreases |p|
  {
    if p != [] {
      assert (p + t)[1..] == p[1..] + t;
      TrimStartSkips(p[1..], t);
    } else {
      assert p + t == t;
    }
  }

  lemma {:induction false} TrimEndSkips(t: string, q: string)
    requires AllSpace(q)
    requires t == [] || !IsSpace(t[|t| - 1])
    ensures TrimEnd(t + q) == t
    decreases |q|
  {
    if q != [] {
      assert (t + q)[..|t + q| - 1] == t + q[..|q| - 1];
      TrimEndSkips(t, q[..|q| - 1]);
    } else {
      assert t + q == t;
    }
  }

  /** `Strip` is determined by its contract: whatever splits `s` into a
      whitespace prefix, a middle that neither starts nor ends with
      whitespace, and a whitespace suffix, the stripped text is that middle. */
  lemma StripUnique(p: string, m: string, q: string)
    requires AllSpace(p) && AllSpace(q)
    requires m == [] || (!IsSpace(m[0]) && !IsSpace(m[|m| - 1]))
    ensures Strip(p + m + q) == m
  {
    if m == [] {
      assert p + m + q == (p + q) + [];
      TrimStartSkips(p + q, []);
    } else {
      assert p + m + q == p + (m + q);
      TrimStartSkips(p, m + q);
      TrimEndSkips(m, q);
    }
  }

  /** Stripping twice is stripping once. */
  lemma StripIdempotent(s: string)
    ensures Strip(Strip(s)) == Strip(s)
  {
    var m := Strip(s);
    StripShape(s);
    assert [] + m + [] == m;
    StripUnique([], m, []);
  }

  /** A span's text strips to the empty string exactly when it is made of
      whitespace only (the empty text included). */
  lemma StripEmptyIff(s: string)
    ensures Strip(s) == [] <==> AllSpace(s)
  {
    StripShape(s);
    if AllSpace(s) {
      assert s + [] + [] == s;
      StripUnique(s, [], []);
    }
  }

  /** `" ".join(words)` */
  function Join(words: seq<string>): (r: string)
    decreases |words|
  {
    if |words| == 0 then ""
    else if |words| == 1 then words[0]
    else words[0] + " " + Join(words[1..])
  }

  /** Index of the first `c` in `s`. */
  function IndexOf(s: string, c: char): (i: nat)
    requires c in s
    ensures i < |s| && s[i] == c && c !in s[..i]
  {
    if s[0] == c then 0 else 1 + IndexOf(s[1..], c)
  }

  lemma {:induction false} IndexOfFirst(s: string, c: char, j: nat)
    requires j < |s| && s[j] == c && c !in s[..j]
    ensures IndexOf(s, c) == j
    decreases j
  {
    if j > 0 {
      assert s[0] == s[..j][0];
      assert s[1..][..j - 1] == s[..j][1..];
      IndexOfFirst(s[1..], c, j - 1);
    }
  }

  /** `s.split(" ")`: the pieces between single spaces, so that `Join`
      undoes it for every string. */
  function Split(s: string): (r: seq<string>)
    ensures |r| >= 1
    ensures forall k :: 0 <= k < |r| ==> ' ' !in r[k]
    ensures Join(r) == s
    decreases |s|
  {
    if ' ' in s then
      var i := IndexOf(s, ' ');
      var rest := Split(s[i + 1..]);
      assert s == s[..i] + " " + s[i + 1..];
      [s[..i]] + rest
    else
      [s]
  }

  /** Splitting peels off the text up to the first space. */
  lemma SplitCons(w: string, rest: string)
    requires ' ' !in w
    ensures Split(w + " " + rest) == [w] + Split(rest)
  {
    var s := w + " " + rest;
    assert s[..|w|] == w;
    assert s[|w|] == ' ';
    IndexOfFirst(s, ' ', |w|);
    assert s[|w| + 1..] == rest;
  }

  /** Joining with single spaces keeps every word apart when no word holds a
      space itself: splitting the result on spaces gives the words back. */
  lemma {:induction false} SplitJoin(words: seq<string>)
    requires |words| >= 1
    requires forall k :: 0 <= k < |words| ==> ' ' !in words[k]
    ensures Split(Join(words)) == words
    decreases |words|
  {
    if |words| > 1 {
      var w, tail := words[0], words[1..];
      assert ' ' !in w;
      forall k | 0 <= k < |tail|
        ensures ' ' !in tail[k]
      {
        assert tail[k] == words[k + 1];
      }
      var joined := Join(tail);
      assert Join(words) == w + " " + joined;
      SplitCons(w, joined);
      SplitJoin(tail);
      assert words == [w] + tail;
    }
  }

  /** The joined text is empty exactly when there are no words or there is
      a single, empty, word. */
  lemma JoinEmptyIff(words: seq<string>)
    ensures Join(words) == "" <==> |words| == 0 || words == [""]
  {
    if |words| > 1 {
      assert |Join(words)| >= 1;
    } else if |words| == 1 {
      assert words == [words[0]];
    }
  }

  /** The joined text is as long as all the words together plus one
      separator between each consecutive pair. */
  function TotalLength(words: seq<string>): (r: nat) {
    if words == [] then 0 else |words[0]| + TotalLength(words[1..])
  }

  lemma {:induction false} JoinLength(words: seq<string>)
    requires |words| >= 1
    ensures |Join(words)| == TotalLength(words) + |words| - 1
    decreases |words|
  {
    if |words| > 1 {
      JoinLength(words[1..]);
    }
  }
}
