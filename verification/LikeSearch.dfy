/** Search terms in LIKE patterns: an escaped term between wildcards is a substring search. */
module LikeSearch {

  function Fold(c: char): char { if 'A' <= c <= 'Z' then c - 'A' + 'a' else c }

  predicate Meta(c: char) { c == '\\' || c == '%' || c == '_' }

  /** SQL LIKE with ESCAPE '\': percent matches any run, underscore any one character, an escaped
      character itself; letters match in either ASCII case. */
  predicate Like(p: string, t: string)
    decreases |p|, |t|
  {
    if p == "" then t == ""
    else if p[0] == '%' then Like(p[1..], t) || (t != "" && Like(p, t[1..]))
    else if p[0] == '_' then t != "" && Like(p[1..], t[1..])
    else if p[0] == '\\' then |p| > 1 && t != "" && Fold(p[1]) == Fold(t[0]) && Like(p[2..], t[1..])
    else t != "" && Fold(p[0]) == Fold(t[0]) && Like(p[1..], t[1..])
  }

  function Escaped(s: string): string {
    if s == "" then "" else (if Meta(s[0]) then ['\\', s[0]] else [s[0]]) + Escaped(s[1..])
  }

  function LikeContains(s: string): string { "%" + Escaped(s) + "%" }

  lemma {:induction false} EscapedSnoc(s: string, c: char)
    ensures Escaped(s + [c]) == Escaped(s) + Escaped([c])
  {
    if s != "" {
      assert (s + [c])[1..] == s[1..] + [c];
      EscapedSnoc(s[1..], c);
    } else {
      assert s + [c] == [c];
    }
  }

  method EscapeLike(input: string) returns (escaped: string)
    ensures escaped == Escaped(input)
  {
    escaped := "";
    for i := 0 to |input|
      invariant escaped == Escaped(input[..i])
    {
      EscapedSnoc(input[..i], input[i]);
      assert input[..i + 1] == input[..i] + [input[i]];
      if input[i] == '\\' || input[i] == '%' || input[i] == '_' {
        escaped := escaped + ['\\'];
      }
      escaped := escaped + [input[i]];
    }
    assert input[..|input|] == input;
  }

  /** The same character, or the same ASCII letter in the other case. */
  predicate Alike(c: char, d: char) {
    c == d || ('A' <= c <= 'Z' && d as int == c as int + 32) || ('A' <= d <= 'Z' && c as int == d as int + 32)
  }

  /** The term stands at the start of the text, up to ASCII case. */
  predicate StartsWith(s: string, t: string) {
    |s| <= |t| && forall k :: 0 <= k < |s| ==> Alike(s[k], t[k])
  }

  ghost predicate Occurs(s: string, t: string) {
    exists i :: 0 <= i <= |t| && StartsWith(s, t[i..])
  }

  lemma {:induction false} PercentMatchesAll(t: string)
    ensures Like("%", t)
  {
    if t != "" { PercentMatchesAll(t[1..]); } else { assert "%"[1..] == ""; }
  }

  lemma StartsWithCons(s: string, t: string)
    requires s != ""
    ensures StartsWith(s, t) <==> t != "" && Alike(s[0], t[0]) && StartsWith(s[1..], t[1..])
  {
    if t != "" && Alike(s[0], t[0]) && StartsWith(s[1..], t[1..]) {
      forall k | 0 <= k < |s| ensures Alike(s[k], t[k]) {
        if k > 0 { assert Alike(s[1..][k - 1], t[1..][k - 1]); }
      }
    }
  }

  lemma {:induction false} EscapedIsLiteral(s: string, t: string)
    ensures Like(Escaped(s) + "%", t) <==> StartsWith(s, t)
    decreases |s|
  {
    var p := Escaped(s) + "%";
    if s == "" {
      assert p == "%";
      PercentMatchesAll(t);
    } else {
      StartsWithCons(s, t);
      var k := if Meta(s[0]) then 2 else 1;
      assert p[k..] == Escaped(s[1..]) + "%";
      if t != "" { EscapedIsLiteral(s[1..], t[1..]); }
    }
  }

  lemma OccursCons(s: string, t: string)
    ensures Occurs(s, t) <==> StartsWith(s, t) || (t != "" && Occurs(s, t[1..]))
  {
    assert t[0..] == t;
    if i :| 0 <= i <= |t| && StartsWith(s, t[i..]) {
      if i > 0 { assert t[1..][i - 1..] == t[i..]; }
    }
    if t != "" && Occurs(s, t[1..]) {
      var i :| 0 <= i <= |t[1..]| && StartsWith(s, t[1..][i..]);
      assert t[i + 1..] == t[1..][i..];
    }
  }

  /** The pattern built from any term matches exactly the texts the term occurs in. */
  lemma {:induction false} LikeContainsIsSubstringSearch(s: string, t: string)
    ensures Like(LikeContains(s), t) <==> Occurs(s, t)
    decreases |t|
  {
    var p := LikeContains(s);
    assert p[1..] == Escaped(s) + "%";
    EscapedIsLiteral(s, t);
    OccursCons(s, t);
    if t != "" { LikeContainsIsSubstringSearch(s, t[1..]); }
  }
}
