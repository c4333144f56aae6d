/** Where the lines of a text begin. */
module TextLines {
  import opened Text

  /** A line begins here. */
  predicate LineStart(s: string, c: char, n: nat)
    requires n <= |s|
  {
    n == 0 || s[n - 1] == c
  }

  /** What begins with a line consists of the last lines. */
  lemma {:induction false} LineStartIsLine(s: string, c: char, n: nat) returns (k: nat)
    requires n <= |s| && LineStart(s, c, n)
    ensures k < |Split(s, c)| && Join(Split(s, c)[k..], c) == s[n..] && (k == 0 <==> n == 0)
    decreases |s|
  {
    if n == 0 {
      k := 0;
      JoinSplit(s, c);
      assert Split(s, c)[0..] == Split(s, c) && s[0..] == s;
    } else {
      var rest := Split(s[1..], c);
      if n == 1 {
        JoinSplit(s[1..], c);
        k := 1;
        assert Split(s, c)[1..] == rest;
      } else {
        var j := LineStartIsLine(s[1..], c, n - 1);
        assert s[1..][n - 1..] == s[n..];
        if s[0] == c {
          k := j + 1;
          assert Split(s, c)[k..] == rest[j..];
        } else {
          k := j;
          assert Split(s, c)[k..] == rest[j..];
        }
      }
    }
  }

  /** Each of the lines but the first begins behind a line break. */
  lemma {:induction false} LineIsLineStart(lines: seq<string>, c: char, k: nat) returns (n: nat)
    requires 0 < k < |lines|
    ensures var s := Join(lines, c); 0 < n <= |s| && s[n - 1] == c && Join(lines[k..], c) == s[n..]
    decreases k
  {
    var rest := Join(lines[1..], c);
    var s := Join(lines, c);
    assert s == lines[0] + ([c] + rest);
    if k == 1 {
      n := |lines[0]| + 1;
    } else {
      var m := LineIsLineStart(lines[1..], c, k - 1);
      n := |lines[0]| + 1 + m;
      assert lines[1..][k - 1..] == lines[k..];
      assert s[n - 1] == rest[m - 1] && s[n..] == rest[m..];
    }
  }
}
