/** Scanning text: blanks, characters, words and lines. */
module Text {
  import opened Options

  predicate Blank(c: char) {
    c == ' ' || c == '\t'
  }

  /** How many blanks `t` starts with. */
  function Blanks(t: string): (n: nat)
    ensures n <= |t| && (forall i :: 0 <= i < n ==> Blank(t[i])) && (n < |t| ==> !Blank(t[n]))
  {
    if t != "" && Blank(t[0]) then 1 + Blanks(t[1..]) else 0
  }

  /** The length of `t` without the blanks it ends with. */
  function Trimmed(t: string): (n: nat)
    ensures n <= |t| && (forall i :: n <= i < |t| ==> Blank(t[i])) && (n > 0 ==> !Blank(t[n - 1]))
  {
    if t != "" && Blank(t[|t| - 1]) then Trimmed(t[..|t| - 1]) else |t|
  }

  /** Where `c` first is in `t`, or the end of `t`. */
  function Find(t: string, c: char): (n: nat)
    ensures n <= |t| && (forall i :: 0 <= i < n ==> t[i] != c) && (n < |t| ==> t[n] == c)
  {
    if t != "" && t[0] != c then 1 + Find(t[1..], c) else 0
  }

  predicate Has(t: string, c: char) {
    exists i :: 0 <= i < |t| && t[i] == c
  }

  /** A token: neither empty nor with blanks at either end. */
  predicate Token(t: string) {
    t != "" && !Blank(t[0]) && !Blank(t[|t| - 1])
  }

  predicate AllBlank(t: string) {
    forall i :: 0 <= i < |t| ==> Blank(t[i])
  }

  lemma SkipsBlanks(b: string, t: string)
    requires AllBlank(b) && (t == "" || !Blank(t[0]))
    ensures Blanks(b + t) == |b|
  {
    hide Blanks;
    assert forall i :: 0 <= i < |b| ==> (b + t)[i] == b[i];
    assert t != "" ==> (b + t)[|b|] == t[0];
  }

  lemma TrimsBlanks(t: string, b: string)
    requires AllBlank(b) && (t == "" || !Blank(t[|t| - 1]))
    ensures Trimmed(t + b) == |t|
  {
    hide Trimmed;
    assert forall i :: 0 <= i < |b| ==> (t + b)[|t| + i] == b[i];
    assert t != "" ==> (t + b)[|t| - 1] == t[|t| - 1];
  }

  lemma FindsAfter(t: string, c: char, rest: string)
    requires !Has(t, c) && rest != "" && rest[0] == c
    ensures Find(t + rest, c) == |t|
  {
    hide Find;
    assert forall i :: 0 <= i < |t| ==> (t + rest)[i] == t[i];
    assert (t + rest)[|t|] == c;
  }

  lemma FindsNothing(t: string, c: char)
    requires !Has(t, c)
    ensures Find(t, c) == |t|
  {
  }

  datatype Field = Field(text: string, after: string)

  /** The token at the start of `t` that ends before `c`, and what follows that `c`. */
  function FieldBefore(t: string, c: char): Option<Field>
  {
    var r := t[Blanks(t)..];
    var n := Find(r, c);
    var size := Trimmed(r[..n]);
    if n == |r| || size == 0 then None else Some(Field(r[..size], r[n + 1..]))
  }

  lemma ReadsField(b: string, token: string, a: string, c: char, after: string)
    requires AllBlank(b) && AllBlank(a) && Token(token) && !Has(token, c) && !Blank(c)
    ensures FieldBefore(b + (token + (a + ([c] + after))), c) == Some(Field(token, after))
  {
    hide Blanks, Trimmed, Find;
    var r := token + (a + ([c] + after));
    SkipsBlanks(b, r);
    assert (b + r)[|b|..] == r;
    FindsAfter(token + a, c, [c] + after);
    assert r == token + a + ([c] + after);
    TrimsBlanks(token, a);
    assert r[..|token + a|] == token + a && r[..|token|] == token && r[|token + a| + 1..] == after;
  }

  lemma FieldRead(t: string, c: char) returns (b: string, a: string)
    requires FieldBefore(t, c).Some?
    ensures var f := FieldBefore(t, c).value;
            && AllBlank(b) && AllBlank(a) && Token(f.text) && !Has(f.text, c)
            && t == b + (f.text + (a + ([c] + f.after)))
  {
    hide Blanks, Trimmed, Find;
    var r := t[Blanks(t)..];
    var n := Find(r, c);
    var size := Trimmed(r[..n]);
    b, a := t[..Blanks(t)], r[size..n];
    assert a == r[..n][size..];
    Rejoin(r, size, n);
  }

  lemma Rejoin(r: string, size: nat, n: nat)
    requires size <= n < |r|
    ensures r == r[..size] + (r[size..n] + ([r[n]] + r[n + 1..]))
  {
  }

  /** Whether `word` is part of `t`. */
  predicate Contains(t: string, word: string) {
    exists i :: 0 <= i <= |t| - |word| && At(t, i, word)
  }

  predicate At(t: string, i: nat, word: string)
  {
    i + |word| <= |t| && t[i..i + |word|] == word
  }

  lemma ContainsInside(a: string, t: string, b: string, word: string)
    requires Contains(t, word)
    ensures Contains(a + t + b, word)
  {
    var i :| 0 <= i <= |t| - |word| && At(t, i, word);
    assert (a + t + b)[|a| + i..|a| + i + |word|] == t[i..i + |word|];
    assert At(a + t + b, |a| + i, word);
  }

  // ---------------------------------------------------------------- lines

  /** The end of the first line, its newline not included. */
  function LineEnd(t: string): (n: nat)
    ensures n <= |t|
  {
    Find(t, '\n')
  }

  /** Where the line after the first one starts. */
  function NextLine(t: string): (n: nat)
    ensures n <= |t| && (t != "" ==> n > 0)
  {
    if LineEnd(t) < |t| then LineEnd(t) + 1 else |t|
  }

  /** Text made of whole lines. */
  predicate WholeLines(t: string) {
    t == "" || t[|t| - 1] == '\n'
  }

  lemma FirstLine(line: string, rest: string)
    requires !Has(line, '\n')
    ensures LineEnd(line + "\n" + rest) == |line| && NextLine(line + "\n" + rest) == |line| + 1
  {
    FindsAfter(line, '\n', "\n" + rest);
    assert line + "\n" + rest == line + ("\n" + rest);
  }

  lemma FirstLineOfTwo(a: string, b: string)
    requires a != "" && WholeLines(a)
    ensures LineEnd(a + b) == LineEnd(a) < |a| && NextLine(a + b) == NextLine(a)
    ensures WholeLines(a[NextLine(a)..])
  {
    var n := LineEnd(a);
    assert a[|a| - 1] == '\n';
    assert n < |a|;
    assert forall i :: 0 <= i < n ==> (a + b)[i] == a[i];
    assert (a + b)[n] == '\n';
  }
}
