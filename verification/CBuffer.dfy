/** C strings in character buffers. */
module CBuffer {
  predicate NulFree(s: string) {
    forall i | 0 <= i < |s| :: s[i] != '\0'
  }

  /** The text up to the first NUL. */
  function BeforeNul(s: string): (r: string)
    ensures r <= s
  {
    if s == "" || s[0] == '\0' then "" else [s[0]] + BeforeNul(s[1..])
  }

  lemma {:induction false} BeforeNulWhole(s: string)
    ensures BeforeNul(s) == s <==> NulFree(s)
    ensures BeforeNul(s + ['\0']) == BeforeNul(s)
  {
    if s != "" {
      BeforeNulWhole(s[1..]);
      assert (s + ['\0'])[1..] == s[1..] + ['\0'];
      assert BeforeNul(s) == s ==> BeforeNul(s[1..]) == s[1..];
      if forall i | 0 <= i < |s| :: s[i] != '\0' {
        assert [s[0]] + s[1..] == s;
      }
    }
  }

  /** The buffer starts with this text. */
  ghost predicate Written(a: array<char>, out: string)
    reads a
  {
    |out| <= a.Length && forall k | 0 <= k < |out| :: a[k] == out[k]
  }

  /** The buffer holds this text as a C string. */
  ghost predicate Holds(a: array<char>, s: string)
    reads a
  {
    NulFree(s) && Written(a, s + ['\0'])
  }

  /** `*p++ = c`, with the text written so far. */
  method Put(a: array<char>, p: nat, c: char, ghost out: string) returns (ghost out': string)
    requires p < a.Length && |out| == p && Written(a, out)
    modifies a
    ensures out' == out + [c] && Written(a, out')
    ensures forall k | p < k < a.Length :: a[k] == old(a[k])
  {
    a[p] := c;
    out' := out + [c];
  }

  /** `*p = 0`. */
  method Terminate(a: array<char>, p: nat, ghost out: string)
    requires p < a.Length && |out| == p && Written(a, out) && NulFree(out)
    modifies a
    ensures Holds(a, out)
  {
    a[p] := '\0';
  }

  /** `for (i = 0; i < count; i++) *p++ = c`. */
  method Fill(a: array<char>, p: nat, c: char, count: nat, ghost out: string) returns (p': nat, ghost out': string)
    requires |out| == p && p + count <= a.Length && Written(a, out)
    modifies a
    ensures p' == p + count && out' == out + seq(count, _ => c) && Written(a, out')
  {
    p', out' := p, out;
    for i := 0 to count
      invariant p' == p + i && out' == out + seq(i, _ => c) && Written(a, out')
    {
      out' := Put(a, p', c, out');
      p' := p' + 1;
      assert seq(i + 1, _ => c) == seq(i, _ => c) + [c];
    }
  }

  /** `strcpy(p, s); p += strlen(s)`: the text and its terminator must fit. */
  method CopyText(a: array<char>, p: nat, s: string, ghost out: string) returns (p': nat, ghost out': string)
    requires |out| == p && p + |s| < a.Length && Written(a, out)
    modifies a
    ensures p' == p + |s| && out' == out + s && Written(a, out') && a[p'] == '\0'
  {
    p', out' := p, out;
    for i := 0 to |s|
      invariant p' == p + i && out' == out + s[..i] && Written(a, out')
    {
      out' := Put(a, p', s[i], out');
      p' := p' + 1;
      assert s[..i + 1] == s[..i] + [s[i]];
    }
    assert s[..|s|] == s;
    a[p'] := '\0';
  }

  /** `memmove(a + to, a + from, n)`. */
  method Move(a: array<char>, to: nat, from: nat, n: nat)
    requires to + n <= a.Length && from + n <= a.Length
    modifies a
    ensures forall i | 0 <= i < a.Length :: a[i] == if to <= i < to + n then old(a[from + (i - to)]) else old(a[i])
  {
    if to <= from {
      for i := 0 to n
        invariant forall k | 0 <= k < a.Length :: a[k] == if to <= k < to + i then old(a[from + (k - to)]) else old(a[k])
      {
        a[to + i] := a[from + i];
      }
    } else {
      for i := n downto 0
        invariant forall k | 0 <= k < a.Length :: a[k] == if to + i <= k < to + n then old(a[from + (k - to)]) else old(a[k])
      {
        a[to + i] := a[from + i];
      }
    }
  }

  /** `strlen`, giving the text itself. */
  method Text(a: array<char>, ghost expected: string) returns (s: string)
    requires Holds(a, expected)
    ensures s == expected
  {
    var n := 0;
    assert a[|expected|] == (expected + ['\0'])[|expected|];
    while a[n] != '\0'
      invariant n <= |expected|
      decreases |expected| - n
    {
      assert a[n] == (expected + ['\0'])[n];
      n := n + 1;
    }
    assert a[n] == (expected + ['\0'])[n];
    s := a[..n];
  }

  /** `strdup`. */
  method Duplicate(s: string) returns (a: array<char>)
    requires NulFree(s)
    ensures fresh(a) && a.Length == |s| + 1 && Holds(a, s)
  {
    a := new char[|s| + 1];
    ghost var out;
    var p;
    p, out := CopyText(a, 0, s, "");
    assert out == s;
  }
}
