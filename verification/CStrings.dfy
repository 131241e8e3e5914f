/** string.c: the byte-moving loops that block copies and directory names rest on. */
module CStrings {
  import opened Bytes

  /** Copies n bytes of mem from s to d; the two ranges may overlap. */
  method Memmove(mem: array<byte>, d: nat, s: nat, n: nat)
    requires d + n <= mem.Length && s + n <= mem.Length
    modifies mem
    ensures forall k | d <= k < d + n :: mem[k] == old(mem[k - d + s])
    ensures forall k | 0 <= k < mem.Length && !(d <= k < d + n) :: mem[k] == old(mem[k])
  {
    if s < d && s + n > d {
      var m := n;
      while m > 0
        invariant 0 <= m <= n
        invariant forall k | d + m <= k < d + n :: mem[k] == old(mem[k - d + s])
        invariant forall k | 0 <= k < mem.Length && !(d + m <= k < d + n) :: mem[k] == old(mem[k])
      {
        m := m - 1;
        mem[d + m] := mem[s + m];
      }
    } else {
      var m := 0;
      while m < n
        invariant 0 <= m <= n
        invariant forall k | d <= k < d + m :: mem[k] == old(mem[k - d + s])
        invariant forall k | 0 <= k < mem.Length && !(d <= k < d + m) :: mem[k] == old(mem[k])
      {
        mem[d + m] := mem[s + m];
        m := m + 1;
      }
    }
  }

  /** strnlen: bytes before the first NUL, n at most. */
  function Len(p: seq<byte>, n: nat): (l: nat)
    ensures l <= n && l <= |p|
    ensures forall i | 0 <= i < l :: p[i] != 0
    ensures l < n && l < |p| ==> p[l] == 0
  {
    if n == 0 || p == [] || p[0] == 0 then 0 else 1 + Len(p[1..], n - 1)
  }

  /** The string a counted comparison of n bytes sees at p. */
  function CStr(p: seq<byte>, n: nat): (s: seq<byte>) {
    p[..Len(p, n)]
  }

  /** n bytes can be examined at p without running off its end. */
  ghost predicate Readable(p: seq<byte>, n: nat) {
    Len(p, n) < n ==> Len(p, n) < |p|
  }

  /** Zero exactly when the two counted strings are equal. */
  method Strncmp(p: seq<byte>, q: seq<byte>, n: nat) returns (r: int)
    requires Readable(p, n) && Readable(q, n)
    ensures r == 0 <==> CStr(p, n) == CStr(q, n)
  {
    var i, m := 0, n;
    while m > 0 && p[i] != 0 && p[i] == q[i]
      invariant 0 <= i <= |p| && i <= |q| && i + m == n
      invariant forall k | 0 <= k < i :: p[k] == q[k] != 0
      invariant m > 0 ==> i < |p| && i < |q|
    {
      i, m := i + 1, m - 1;
    }
    if m == 0 {
      assert Len(p, n) == n == Len(q, n);
      return 0;
    }
    r := p[i] as int - q[i] as int;
    if r != 0 && Len(p, n) == Len(q, n) {
      assert CStr(p, n)[i] != CStr(q, n)[i];
    }
  }

  /** A string in a fixed field of n bytes, filled up with NULs. */
  function Pad(s: seq<byte>, n: nat): (f: seq<byte>)
    requires |s| <= n
  {
    s + seq(n - |s|, i => 0)
  }

  /** Copies the counted string t into a field of n bytes and zero-fills the rest. */
  method Strncpy(t: seq<byte>, n: nat) returns (s: seq<byte>)
    requires Readable(t, n)
    ensures s == Pad(CStr(t, n), n)
  {
    s := [];
    var m, i := n, 0;
    var stop := false;
    while m > 0 && !stop
      invariant 0 <= m <= n && i + m == n && i <= |t| && s == t[..i]
      invariant !stop ==> i <= Len(t, n)
      invariant stop ==> i == Len(t, n) + 1
    {
      s := s + [t[i]];
      stop := t[i] == 0;
      i, m := i + 1, m - 1;
    }
    while m > 0
      invariant 0 <= m && |s| + m == n
      invariant s == Pad(CStr(t, n), n)[..n - m]
    {
      s := s + [0];
      m := m - 1;
    }
  }

  lemma {:induction false} CStrPad(s: seq<byte>, n: nat)
    requires |s| <= n && 0 !in s
    ensures CStr(Pad(s, n), n) == s && Readable(Pad(s, n), n)
  {
    var f := Pad(s, n);
    forall i | 0 <= i < |s| ensures f[i] != 0 {
      assert s[i] in s;
    }
    assert |s| < n ==> f[|s|] == 0;
    assert Len(f, n) == |s|;
  }
}
