/** Which lines of an asset manifest xtask/src/assets.rs reads, and what as. */
module ManifestLines {
  import opened Text
  import opened TextTheorems
  import opened Assets

  // -------------------------------------------------------------------------------------------
  // Numbers
  // -------------------------------------------------------------------------------------------

  /** Digits, with or without a plus sign before them, whose value fits 64 bits. */
  predicate IsU64(s: string, d: string, n: nat) {
    (s == d || s == "+" + d) && d != "" && AllDigits(d) && Value(d) == n && n < 0x1_0000_0000_0000_0000
  }

  lemma NumberIff(s: string, n: nat)
    ensures ParseU64(s) == Some(n) <==> exists d :: IsU64(s, d, n)
  {
    var d := if |s| > 1 && s[0] == '+' then s[1..] else s;
    if ParseU64(s) == Some(n) {
      assert IsU64(s, d, n);
    }
    if e :| IsU64(s, e, n) {
      NumberRead(s, e, n);
    }
  }

  lemma NumberRead(s: string, d: string, n: nat)
    requires IsU64(s, d, n)
    ensures ParseU64(s) == Some(n)
  {
    if s == "+" + d {
      assert s[1..] == d;
    } else {
      assert IsDigit(s[0]);
    }
  }

  // -------------------------------------------------------------------------------------------
  // Fields
  // -------------------------------------------------------------------------------------------

  predicate IsGap(s: string) { s != "" && AllWhite(s) }

  lemma {:induction false} WordEnds(w: string, rest: string)
    requires IsWord(w) && (rest == "" || IsWhite(rest[0]))
    ensures WordLength(w + rest) == |w|
  {
    var t, n := w + rest, WordLength(w + rest);
    assert forall i :: 0 <= i < |w| ==> t[i] == w[i];
    assert rest != "" ==> t[|w|] == rest[0];
    assert n == |w|;
  }

  lemma {:induction false} FieldsFirst(w: string, rest: string)
    requires IsWord(w) && (rest == "" || IsWhite(rest[0]))
    ensures Fields(w + rest) == [w] + Fields(rest)
  {
    assert (w + rest)[0] == w[0];
    TrimStartId(w + rest);
    WordEnds(w, rest);
    assert (w + rest)[..|w|] == w && (w + rest)[|w|..] == rest;
  }

  lemma {:induction false} FieldsBehind(gap: string, s: string)
    requires AllWhite(gap) && s != "" && !IsWhite(s[0])
    ensures Fields(gap + s) == Fields(s)
  {
    TrimOver(gap, s);
    TrimStartId(s);
  }

  /** What the first field of a trimmed text is, and what stands behind it. */
  lemma FirstField(t: string) returns (w: string, gap: string, rest: string)
    requires t != "" && IsTrimmed(t)
    ensures t == w + (gap + rest) && IsWord(w) && Fields(t) == [w] + Fields(rest)
    ensures rest == "" ==> gap == ""
    ensures rest != "" ==> IsGap(gap) && IsTrimmed(rest)
  {
    TrimStartId(t);
    var n := WordLength(t);
    w := t[..n];
    assert IsWord(w) by { assert w[0] == t[0]; }
    var tail := t[n..];
    gap := TrimSplits(tail);
    rest := TrimStart(tail);
    assert t == w + tail;
    LastOf(w, tail);
    LastOf(gap, rest);
    if rest != "" {
      FieldsBehind(gap, rest);
    }
    FieldsFirst(w, tail);
  }

  lemma LastOf(a: string, b: string)
    ensures b != "" ==> (a + b)[|a + b| - 1] == b[|b| - 1]
    ensures a != "" ==> (a + b)[0] == a[0]
    ensures a == "" ==> a + b == b
    ensures b == "" ==> a + b == a
  {
  }

  /** Four words with white space between them. */
  predicate FourWords(t: string, f: seq<string>, g: seq<string>) {
    && |f| == 4 && |g| == 3 && t == f[0] + (g[0] + (f[1] + (g[1] + (f[2] + (g[2] + f[3])))))
    && IsWord(f[0]) && IsWord(f[1]) && IsWord(f[2]) && IsWord(f[3]) && IsGap(g[0]) && IsGap(g[1]) && IsGap(g[2])
  }

  lemma {:induction false} OneMore(w: string, gap: string, rest: string, f: seq<string>)
    requires IsWord(w) && IsGap(gap) && rest != "" && !IsWhite(rest[0]) && Fields(rest) == f
    ensures Fields(w + (gap + rest)) == [w] + f
  {
    assert IsWhite((gap + rest)[0]);
    FieldsFirst(w, gap + rest);
    FieldsBehind(gap, rest);
  }

  lemma {:induction false} FourRead(t: string, f: seq<string>, g: seq<string>)
    requires FourWords(t, f, g)
    ensures Fields(t) == f
  {
    FieldsOfLast(f[3]);
    OneMore(f[2], g[2], f[3], [f[3]]);
    var behind := f[2] + (g[2] + f[3]);
    OneMore(f[1], g[1], behind, [f[2], f[3]]);
    OneMore(f[0], g[0], f[1] + (g[1] + behind), [f[1], f[2], f[3]]);
    assert [f[0]] + [f[1], f[2], f[3]] == f;
  }

  lemma FourFound(t: string) returns (g: seq<string>)
    requires t != "" && IsTrimmed(t) && |Fields(t)| == 4
    ensures FourWords(t, Fields(t), g)
  {
    var a, g0, s := FirstField(t);
    assert s != "";
    var b, g1, u := FirstField(s);
    assert u != "";
    var c, g2, v := FirstField(u);
    assert v != "";
    var d := LastField(v);
    g := [g0, g1, g2];
    assert Fields(t) == [a, b, c, d];
  }

  lemma LastField(t: string) returns (w: string)
    requires t != "" && IsTrimmed(t) && |Fields(t)| == 1
    ensures t == w && IsWord(w) && Fields(t) == [w]
  {
    var gap, rest;
    w, gap, rest := FirstField(t);
    if rest != "" {
      var v, more, z := FirstField(rest);
    }
  }

  // -------------------------------------------------------------------------------------------
  // Lines
  // -------------------------------------------------------------------------------------------

  /** Path, size, hash and provenance, with white space between them. */
  ghost predicate Says(t: string, e: Entry) {
    exists size, g, d ::
      FourWords(t, [e.path, size, e.hash, e.provenance], g) && IsU64(size, d, e.bytes)
  }

  lemma {:induction false} FieldsIff(t: string, f: seq<string>)
    requires t != "" && IsTrimmed(t) && |f| == 4
    ensures Fields(t) == f <==> exists g :: FourWords(t, f, g)
  {
    if Fields(t) == f {
      var g := FourFound(t);
    }
    if g :| FourWords(t, f, g) {
      FourRead(t, f, g);
    }
  }

  lemma {:induction false} EntryIff(t: string, e: Entry)
    requires t != "" && IsTrimmed(t)
    ensures ParseFields(Fields(t)) == Read(e) <==> Says(t, e)
  {
    if ParseFields(Fields(t)) == Read(e) {
      EntrySaid(t, e, Fields(t));
    }
    if Says(t, e) {
      var size, g, d :| FourWords(t, [e.path, size, e.hash, e.provenance], g) && IsU64(size, d, e.bytes);
      FourRead(t, [e.path, size, e.hash, e.provenance], g);
      NumberRead(size, d, e.bytes);
    }
  }

  lemma {:induction false} EntrySaid(t: string, e: Entry, f: seq<string>)
    requires t != "" && IsTrimmed(t) && f == Fields(t) && ParseFields(f) == Read(e)
    ensures Says(t, e)
  {
    var g := FourFound(t);
    NumberIff(f[1], e.bytes);
    var d :| IsU64(f[1], d, e.bytes);
    assert f == [e.path, f[1], e.hash, e.provenance];
  }

  /** A line is passed over when it is blank, a comment or begins with the version's name; it is read as an entry
      exactly when it says that entry; any other is an error. */
  lemma LineIff(line: string, e: Entry)
    ensures ParseLine(line) == Skip <==>
            Trim(line) == "" || Trim(line)[0] == '#' || "format_version" <= Trim(line)
    ensures ParseLine(line) == Read(e) <==> ParseLine(line) != Skip && Says(Trim(line), e)
  {
    TrimIff(line, Trim(line));
    if Trim(line) != "" {
      EntryIff(Trim(line), e);
    }
  }
}
