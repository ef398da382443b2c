/**
 Splitting a message into whitespace-delimited tokens (`str::split_whitespace`)
 and removing surrounding whitespace (`str::trim`). Both use the same notion of
 whitespace: the Unicode White_Space property, as tested by `char::is_whitespace`.
 */
module Words {

  /** The 25 code points with the Unicode White_Space property. */
  predicate IsWhitespace(c: char)
  {
    var n := c as int;
    (0x09 <= n <= 0x0D) || n == 0x20 || n == 0x85 || n == 0xA0 || n == 0x1680
    || (0x2000 <= n <= 0x200A) || n == 0x2028 || n == 0x2029 || n == 0x202F
    || n == 0x205F || n == 0x3000
  }

  /** Every character is whitespace (true of the empty string). */
  predicate IsBlank(s: string)
  {
    forall i :: 0 <= i < |s| ==> IsWhitespace(s[i])
  }

  /** A possible token: non-empty and free of whitespace. */
  predicate IsWord(s: string)
  {
    |s| > 0 && forall i :: 0 <= i < |s| ==> !IsWhitespace(s[i])
  }

  /** Length of the leading run of non-whitespace characters: the run is maximal. */
  function WordLength(s: string): (n: nat)
    ensures n <= |s|
    ensures forall i :: 0 <= i < n ==> !IsWhitespace(s[i])
    ensures n < |s| ==> IsWhitespace(s[n])
  {
    if s == [] || IsWhitespace(s[0]) then 0 else 1 + WordLength(s[1..])
  }

  /** `message.split_whitespace()`: the maximal runs of non-whitespace, in order. */
  function Tokens(s: string): seq<string>
    decreases |s|
  {
    if s == [] then []
    else if IsWhitespace(s[0]) then Tokens(s[1..])
    else
      var n := WordLength(s);
      [s[..n]] + Tokens(s[n..])
  }

  /** Every token is non-empty and contains no whitespace. */
  lemma {:induction false} TokensAreWords(s: string)
    ensures forall k :: 0 <= k < |Tokens(s)| ==> IsWord(Tokens(s)[k])
    decreases |s|
  {
    if s != [] {
      if IsWhitespace(s[0]) {
        TokensAreWords(s[1..]);
      } else {
        var n := WordLength(s);
        TokensAreWords(s[n..]);
        assert Tokens(s) == [s[..n]] + Tokens(s[n..]);
      }
    }
  }

  /** The tokens glued back together. */
  function Concat(ts: seq<string>): string
  {
    if ts == [] then [] else ts[0] + Concat(ts[1..])
  }

  /** The characters of `s` that are not whitespace, in their order. */
  function NonWhitespace(s: string): string
  {
    if s == [] then []
    else (if IsWhitespace(s[0]) then [] else [s[0]]) + NonWhitespace(s[1..])
  }

  lemma {:induction false} NonWhitespaceOfWordPrefix(s: string, n: nat)
    requires n <= |s|
    requires forall i :: 0 <= i < n ==> !IsWhitespace(s[i])
    ensures NonWhitespace(s) == s[..n] + NonWhitespace(s[n..])
    decreases n
  {
    if n > 0 {
      NonWhitespaceOfWordPrefix(s[1..], n - 1);
      assert s[1..][n - 1..] == s[n..];
      assert [s[0]] + s[1..][..n - 1] == s[..n];
    }
  }

  /**
   No character other than whitespace is lost, added, altered or reordered:
   the tokens put end to end are exactly the non-whitespace characters of `s`.
   */
  lemma {:induction false} TokensConcat(s: string)
    ensures Concat(Tokens(s)) == NonWhitespace(s)
    decreases |s|
  {
    if s == [] {
    } else if IsWhitespace(s[0]) {
      TokensConcat(s[1..]);
    } else {
      var n := WordLength(s);
      var rest := Tokens(s[n..]);
      TokensConcat(s[n..]);
      NonWhitespaceOfWordPrefix(s, n);
      assert ([s[..n]] + rest)[1..] == rest;
    }
  }

  /** A word followed by whitespace, or by nothing, is one run: its length is the word's. */
  lemma {:induction false} WordLengthOfWordThen(w: string, y: string)
    requires IsWord(w)
    requires y == [] || IsWhitespace(y[0])
    ensures WordLength(w + y) == |w|
    decreases |w|
  {
    var s := w + y;
    assert s[0] == w[0];
    if |w| > 1 {
      assert s[1..] == w[1..] + y;
      assert IsWord(w[1..]) by {
        forall i | 0 <= i < |w[1..]| ensures !IsWhitespace(w[1..][i]) {
          assert w[1..][i] == w[i + 1];
        }
      }
      WordLengthOfWordThen(w[1..], y);
    } else {
      assert s[1..] == y;
    }
  }

  /** A word followed by whitespace, or by nothing, yields that word and then the tokens after it. */
  lemma TokensOfWordThen(w: string, y: string)
    requires IsWord(w)
    requires y == [] || IsWhitespace(y[0])
    ensures Tokens(w + y) == [w] + Tokens(y)
  {
    var s := w + y;
    WordLengthOfWordThen(w, y);
    assert s[0] == w[0];
    assert s[..|w|] == w && s[|w|..] == y;
  }

  /** The leading run of a string that starts with a non-whitespace character is a word. */
  lemma LeadingWord(a: string)
    requires a != [] && !IsWhitespace(a[0])
    ensures IsWord(a[..WordLength(a)])
    ensures a[WordLength(a)..] == [] || IsWhitespace(a[WordLength(a)..][0])
    ensures a == a[..WordLength(a)] + a[WordLength(a)..]
  {
  }

  /** A whitespace character separates: the tokens on either side are independent. */
  lemma {:induction false} TokensSplit(a: string, c: char, b: string)
    requires IsWhitespace(c)
    ensures Tokens(a + [c] + b) == Tokens(a) + Tokens(b)
    decreases |a|
  {
    if a == [] {
      var s := a + [c] + b;
      assert s[0] == c && s[1..] == b;
    } else if IsWhitespace(a[0]) {
      TokensSplit(a[1..], c, b);
      var s := a + [c] + b;
      assert s[0] == a[0];
      assert s[1..] == a[1..] + [c] + b;
    } else {
      var n := WordLength(a);
      LeadingWord(a);
      TokensSplit(a[n..], c, b);
      TokensSplitAfterWord(a[..n], a[n..], c, b);
    }
  }

  /** The step of TokensSplit past a leading word `w` of `a == w + r`. */
  lemma TokensSplitAfterWord(w: string, r: string, c: char, b: string)
    requires IsWord(w) && IsWhitespace(c)
    requires r == [] || IsWhitespace(r[0])
    requires Tokens(r + [c] + b) == Tokens(r) + Tokens(b)
    ensures Tokens(w + r + [c] + b) == Tokens(w + r) + Tokens(b)
  {
    var tail := r + [c] + b;
    assert tail[0] == (if r == [] then c else r[0]);
    calc {
      Tokens(w + r + [c] + b);
      { assert w + r + [c] + b == w + tail; }
      Tokens(w + tail);
      { TokensOfWordThen(w, tail); }
      [w] + (Tokens(r) + Tokens(b));
      [w] + Tokens(r) + Tokens(b);
      { TokensOfWordThen(w, r); }
      Tokens(w + r) + Tokens(b);
    }
  }

  /** A word on its own is a single token, unchanged. */
  lemma {:induction false} TokensOfWord(w: string)
    requires IsWord(w)
    ensures Tokens(w) == [w]
  {
    var n := WordLength(w);
    assert n == |w|;
    assert w[..n] == w && w[n..] == [];
    assert Tokens(w) == [w[..n]] + Tokens(w[n..]);
  }

  /** A message yields no tokens exactly when it is empty or all whitespace. */
  lemma {:induction false} TokensOfBlank(s: string)
    ensures Tokens(s) == [] <==> IsBlank(s)
    decreases |s|
  {
    if s != [] && IsWhitespace(s[0]) {
      TokensOfBlank(s[1..]);
      assert IsBlank(s) <==> IsBlank(s[1..]) by {
        if IsBlank(s[1..]) {
          forall i | 0 <= i < |s| ensures IsWhitespace(s[i]) {
            if i > 0 { assert s[i] == s[1..][i - 1]; }
          }
        }
        if IsBlank(s) {
          forall i | 0 <= i < |s[1..]| ensures IsWhitespace(s[1..][i]) {
            assert s[1..][i] == s[i + 1];
          }
        }
      }
    }
  }

  /** Whitespace added before a message does not change its tokens. */
  lemma {:induction false} BlankPrefixTokens(p: string, x: string)
    requires IsBlank(p)
    ensures Tokens(p + x) == Tokens(x)
  {
    if p != [] {
      var q := p[..|p| - 1];
      assert IsBlank(q) by {
        forall i | 0 <= i < |q| ensures IsWhitespace(q[i]) { assert q[i] == p[i]; }
      }
      TokensOfBlank(q);
      assert Tokens(q) == [];
      assert p + x == q + [p[|p| - 1]] + x;
      TokensSplit(q, p[|p| - 1], x);
      assert Tokens(q + [p[|p| - 1]] + x) == Tokens(x);
    } else {
      assert p + x == x;
    }
  }

  /** Whitespace added after a message does not change its tokens. */
  lemma {:induction false} BlankSuffixTokens(x: string, p: string)
    requires IsBlank(p)
    ensures Tokens(x + p) == Tokens(x)
  {
    if p != [] {
      var q := p[1..];
      assert IsBlank(q) by {
        forall i | 0 <= i < |q| ensures IsWhitespace(q[i]) { assert q[i] == p[i + 1]; }
      }
      TokensOfBlank(q);
      assert x + p == x + [p[0]] + q;
      TokensSplit(x, p[0], q);
    } else {
      assert x + p == x;
    }
  }

  /** `str::trim_start`: a suffix of `s` that does not start with whitespace. */
  function TrimStart(s: string): (r: string)
    ensures |r| <= |s| && r == s[|s| - |r|..]
    ensures r == [] || !IsWhitespace(r[0])
  {
    if s != [] && IsWhitespace(s[0]) then TrimStart(s[1..]) else s
  }

  /** What `TrimStart` drops is whitespace only. */
  lemma {:induction false} TrimStartDropsBlank(s: string)
    ensures IsBlank(s[..|s| - |TrimStart(s)|])
    decreases |s|
  {
    if s != [] && IsWhitespace(s[0]) {
      TrimStartDropsBlank(s[1..]);
      var d := |s| - |TrimStart(s)|;
      forall i | 0 <= i < d ensures IsWhitespace(s[..d][i]) {
        if i > 0 {
          assert s[..d][i] == s[1..][..d - 1][i - 1];
        }
      }
    }
  }

  /** `str::trim_end`: a prefix of `s` that does not end with whitespace. */
  function TrimEnd(s: string): (r: string)
    ensures |r| <= |s| && r == s[..|r|]
    ensures r == [] || !IsWhitespace(r[|r| - 1])
  {
    if s != [] && IsWhitespace(s[|s| - 1]) then TrimEnd(s[..|s| - 1]) else s
  }

  /** What `TrimEnd` drops is whitespace only. */
  lemma {:induction false} TrimEndDropsBlank(s: string)
    ensures IsBlank(s[|TrimEnd(s)|..])
    decreases |s|
  {
    if s != [] && IsWhitespace(s[|s| - 1]) {
      var init := s[..|s| - 1];
      TrimEndDropsBlank(init);
      var k := |TrimEnd(s)|;
      forall i | 0 <= i < |s| - k ensures IsWhitespace(s[k..][i]) {
        if k + i < |s| - 1 {
          assert s[k..][i] == init[k..][i];
        }
      }
    }
  }

  /** `str::trim`: removes the whitespace on both sides; the result neither starts nor ends with whitespace. */
  function Trim(s: string): (r: string)
    ensures r == [] || (!IsWhitespace(r[0]) && !IsWhitespace(r[|r| - 1]))
  {
    var e := TrimEnd(s);
    var r := TrimStart(e);
    assert r != [] ==> r[|r| - 1] == e[|e| - 1];
    r
  }

  /**
   What `Trim` keeps is one contiguous piece of `s`, and everything it drops
   before and after that piece is whitespace.
   */
  lemma TrimSlice(s: string)
    ensures exists i, j :: 0 <= i <= j <= |s| && Trim(s) == s[i..j] && IsBlank(s[..i]) && IsBlank(s[j..])
  {
    var e := TrimEnd(s);
    var r := TrimStart(e);
    var i, j := |e| - |r|, |e|;
    TrimEndDropsBlank(s);
    TrimStartDropsBlank(e);
    assert r == s[i..j];
    assert s[..i] == e[..i];
  }

  /** A string that ends in a non-whitespace character keeps it as the last character when trimmed. */
  lemma TrimKeepsLast(s: string)
    requires s != [] && !IsWhitespace(s[|s| - 1])
    ensures Trim(s) != [] && Trim(s)[|Trim(s)| - 1] == s[|s| - 1]
  {
    assert TrimEnd(s) == s;
    TrimStartDropsBlank(s);
    assert !IsBlank(s);
  }

  /** Trimming a message never changes its tokens. */
  lemma {:induction false} TokensOfTrim(s: string)
    ensures Tokens(Trim(s)) == Tokens(s)
  {
    var e := TrimEnd(s);
    var r := TrimStart(e);
    TrimEndDropsBlank(s);
    TrimStartDropsBlank(e);
    assert s == e + s[|e|..];
    BlankSuffixTokens(e, s[|e|..]);
    assert e == e[..|e| - |r|] + r;
    BlankPrefixTokens(e[..|e| - |r|], r);
  }
}
