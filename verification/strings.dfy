/** The Python `str` operations the request generator is built from, as they
    behave on ASCII text: `upper`, `lower`, `split(sep)`, `split()` and
    `zfill`, plus the joining of lines that the generated files consist of. */
module Strings {

  // ---------------------------------------------------------------------
  // Case mapping (`str.upper`, `str.lower` restricted to ASCII)
  // ---------------------------------------------------------------------

  predicate IsLowerLetter(c: char) { 'a' <= c <= 'z' }

  predicate IsUpperLetter(c: char) { 'A' <= c <= 'Z' }

  function UpperChar(c: char): char {
    if IsLowerLetter(c) then (c as int - 32) as char else c
  }

  function LowerChar(c: char): char {
    if IsUpperLetter(c) then (c as int + 32) as char else c
  }

  /** `s.upper()`: the same text with no lower-case letter left, equal to `s`
      up to case. */
  function Upper(s: string): (r: string)
    ensures |r| == |s|
    ensures forall i :: 0 <= i < |s| ==> !IsLowerLetter(r[i]) && LowerChar(r[i]) == LowerChar(s[i])
    decreases |s|
  {
    if s == [] then [] else [UpperChar(s[0])] + Upper(s[1..])
  }

  /** `s.lower()`: the same text with no upper-case letter left, equal to `s`
      up to case. */
  function Lower(s: string): (r: string)
    ensures |r| == |s|
    ensures forall i :: 0 <= i < |s| ==> !IsUpperLetter(r[i]) && UpperChar(r[i]) == UpperChar(s[i])
    decreases |s|
  {
    if s == [] then [] else [LowerChar(s[0])] + Lower(s[1..])
  }

  /** Case mapping only touches letters: a character that is not a letter
      occurs in the upper- or lower-cased text exactly where it occurs in `s`. */
  lemma CaseKeepsNonLetter(s: string, c: char)
    requires !IsLowerLetter(c) && !IsUpperLetter(c)
    ensures c in Upper(s) <==> c in s
    ensures c in Lower(s) <==> c in s
  {
    var u, l := Upper(s), Lower(s);
    if c in s {
      var i :| 0 <= i < |s| && s[i] == c;
      assert u[i] == c && l[i] == c;
    }
    if c in u {
      var i :| 0 <= i < |u| && u[i] == c;
      assert s[i] == c;
    }
    if c in l {
      var i :| 0 <= i < |l| && l[i] == c;
      assert s[i] == c;
    }
  }

  /** Upper-casing the lower-cased text gives the upper-cased text and vice
      versa: the two renderings of a station code carry the same letters. */
  lemma {:induction false} CaseRoundTrip(s: string)
    ensures Upper(Lower(s)) == Upper(s)
    ensures Lower(Upper(s)) == Lower(s)
    decreases |s|
  {
    if s != [] {
      CaseRoundTrip(s[1..]);
      assert Lower(s)[1..] == Lower(s[1..]);
      assert Upper(s)[1..] == Upper(s[1..]);
    }
  }

  // ---------------------------------------------------------------------
  // Splitting on one separator (`str.split(sep)`) and its inverse
  // ---------------------------------------------------------------------

  /** `sep.join(parts)`. */
  function Join(parts: seq<string>, sep: char): string
    decreases |parts|
  {
    if |parts| == 0 then ""
    else if |parts| == 1 then parts[0]
    else parts[0] + [sep] + Join(parts[1..], sep)
  }

  /** `s.split(sep)`: never empty; the parts hold no separator, consist of
      characters of `s` only, and joined with the separator they give `s`
      back. */
  function SplitOn(s: string, sep: char): (parts: seq<string>)
    ensures |parts| >= 1
    ensures forall k :: 0 <= k < |parts| ==> sep !in parts[k]
    ensures forall k, c :: 0 <= k < |parts| && c in parts[k] ==> c in s
    ensures Join(parts, sep) == s
    decreases |s|
  {
    if s == [] then [""]
    else
      var rest := SplitOn(s[1..], sep);
      if s[0] == sep then
        assert ([""] + rest)[1..] == rest;
        assert forall k :: 1 <= k < |rest| + 1 ==> ([""] + rest)[k] == rest[k - 1];
        assert forall c :: c in s[1..] ==> c in s;
        [""] + rest
      else
        var parts := [[s[0]] + rest[0]] + rest[1..];
        assert parts[1..] == rest[1..];
        assert forall k, c :: 0 <= k < |parts| && c in parts[k] ==> c in s by {
          forall k, c | 0 <= k < |parts| && c in parts[k] ensures c in s {
            if k == 0 {
              assert c == s[0] || c in rest[0];
            } else {
              assert parts[k] == rest[k];
            }
            assert c == s[0] || c in s[1..];
          }
        }
        parts
  }

  lemma JoinCons(p: string, ps: seq<string>, sep: char)
    requires |ps| >= 1
    ensures Join([p] + ps, sep) == p + [sep] + Join(ps, sep)
  {
    assert ([p] + ps)[1..] == ps;
  }

  /** Splitting text whose first part is `a` peels `a` off. */
  lemma {:induction false} SplitOnCons(a: string, b: string, sep: char)
    requires sep !in a
    ensures SplitOn(a + [sep] + b, sep) == [a] + SplitOn(b, sep)
    decreases |a|
  {
    var s := a + [sep] + b;
    if a == [] {
      assert s[1..] == b;
    } else {
      SplitOnCons(a[1..], b, sep);
      assert s[1..] == a[1..] + [sep] + b;
      assert [a[0]] + a[1..] == a;
    }
  }

  /** Text without a separator is a single part. */
  lemma {:induction false} SplitOnNone(a: string, sep: char)
    requires sep !in a
    ensures SplitOn(a, sep) == [a]
    decreases |a|
  {
    if a != [] {
      SplitOnNone(a[1..], sep);
      assert [a[0]] + a[1..] == a;
    }
  }

  /** The round trip `s.join(parts).split(s) == parts` for parts without the
      separator: together with the `Join` clause of `SplitOn`, `split` and
      `join` are inverse to each other. */
  lemma {:induction false} SplitJoin(parts: seq<string>, sep: char)
    requires |parts| >= 1
    requires forall k :: 0 <= k < |parts| ==> sep !in parts[k]
    ensures SplitOn(Join(parts, sep), sep) == parts
    decreases |parts|
  {
    if |parts| == 1 {
      SplitOnNone(parts[0], sep);
    } else {
      SplitJoin(parts[1..], sep);
      SplitOnCons(parts[0], Join(parts[1..], sep), sep);
      assert [parts[0]] + parts[1..] == parts;
    }
  }

  /** Three separator-free pieces joined with `sep` split back into them. */
  lemma SplitThree(x: string, y: string, z: string, sep: char)
    requires sep !in x && sep !in y && sep !in z
    ensures SplitOn(x + [sep] + y + [sep] + z, sep) == [x, y, z]
  {
    var parts := [x, y, z];
    JoinCons(y, [z], sep);
    JoinCons(x, [y, z], sep);
    assert [y] + [z] == [y, z] && [x] + [y, z] == parts;
    assert Join(parts, sep) == x + [sep] + y + [sep] + z;
    SplitJoin(parts, sep);
  }

  // ---------------------------------------------------------------------
  // Lines: text made of lines that each end in a newline
  // ---------------------------------------------------------------------

  /** The text of `lines`, each followed by a newline. */
  function Terminated(lines: seq<string>): string
    decreases |lines|
  {
    if lines == [] then "" else lines[0] + "\n" + Terminated(lines[1..])
  }

  lemma {:induction false} TerminatedAppend(a: seq<string>, b: seq<string>)
    ensures Terminated(a + b) == Terminated(a) + Terminated(b)
    decreases |a|
  {
    if a != [] {
      TerminatedAppend(a[1..], b);
      assert (a + b)[0] == a[0] && (a + b)[1..] == a[1..] + b;
      calc {
        Terminated(a + b);
        a[0] + "\n" + Terminated(a[1..] + b);
        a[0] + "\n" + (Terminated(a[1..]) + Terminated(b));
        (a[0] + "\n" + Terminated(a[1..])) + Terminated(b);
      }
    } else {
      assert a + b == b;
    }
  }

  /** Newline-terminated lines followed by a last piece are all of them
      joined by newlines. */
  lemma {:induction false} TerminatedIsJoin(lines: seq<string>, last: string)
    ensures Terminated(lines) + last == Join(lines + [last], '\n')
    decreases |lines|
  {
    if lines == [] {
      assert lines + [last] == [last];
    } else {
      var rest := lines[1..] + [last];
      TerminatedIsJoin(lines[1..], last);
      JoinCons(lines[0], rest, '\n');
      assert [lines[0]] + rest == lines + [last];
      calc {
        Terminated(lines) + last;
        (lines[0] + "\n" + Terminated(lines[1..])) + last;
        lines[0] + "\n" + (Terminated(lines[1..]) + last);
        lines[0] + "\n" + Join(rest, '\n');
        Join([lines[0]] + rest, '\n');
      }
    }
  }

  /** Reading back newline-terminated lines that hold no newline gives the
      lines and one empty remainder, as `text.split('\n')` does. */
  lemma LinesOfTerminated(lines: seq<string>)
    requires forall k :: 0 <= k < |lines| ==> '\n' !in lines[k]
    ensures SplitOn(Terminated(lines), '\n') == lines + [""]
  {
    TerminatedIsJoin(lines, "");
    assert Terminated(lines) + "" == Terminated(lines);
    SplitJoin(lines + [""], '\n');
  }

  // ---------------------------------------------------------------------
  // Splitting on white space (`str.split()` without arguments)
  // ---------------------------------------------------------------------

  /** The ASCII characters Python's `str.split()` treats as white space. */
  predicate IsSpace(c: char) {
    c == ' ' || 9 <= c as int <= 13 || 28 <= c as int <= 31
  }

  /** Length of the run of non-space characters that starts `s`. */
  function WordLength(s: string): (n: nat)
    requires s != [] && !IsSpace(s[0])
    ensures 1 <= n <= |s|
    ensures forall i :: 0 <= i < n ==> !IsSpace(s[i])
    ensures n < |s| ==> IsSpace(s[n])
    decreases |s|
  {
    if |s| == 1 || IsSpace(s[1]) then 1 else 1 + WordLength(s[1..])
  }

  /** `s.split()`: the maximal runs of non-space characters, in order. Every
      token is non-empty and space-free, and there is no token exactly when
      `s` is blank. */
  function Tokens(s: string): (ts: seq<string>)
    ensures forall k :: 0 <= k < |ts| ==> ts[k] != [] && forall i :: 0 <= i < |ts[k]| ==> !IsSpace(ts[k][i])
    ensures ts == [] <==> forall i :: 0 <= i < |s| ==> IsSpace(s[i])
    decreases |s|
  {
    if s == [] then []
    else if IsSpace(s[0]) then
      assert forall i :: 1 <= i < |s| ==> s[i] == s[1..][i - 1];
      Tokens(s[1..])
    else
      var n := WordLength(s);
      [s[..n]] + Tokens(s[n..])
  }

  /** `split()` skips leading white space and takes as its first word the
      whole run of non-space characters that follows, up to the next white
      space or the end; the words after it are those of the rest. With the
      blank case of `Tokens`' contract, this fixes `split()` completely. */
  lemma {:induction false} TokensCons(sp: string, w: string, rest: string)
    requires forall i :: 0 <= i < |sp| ==> IsSpace(sp[i])
    requires w != [] && forall i :: 0 <= i < |w| ==> !IsSpace(w[i])
    requires rest == [] || IsSpace(rest[0])
    ensures Tokens(sp + w + rest) == [w] + Tokens(rest)
    decreases |sp|
  {
    var s := sp + w + rest;
    if sp == [] {
      assert s == w + rest;
      assert s[0] == w[0];
      var n := WordLength(s);
      assert forall i :: 0 <= i < |w| ==> s[i] == w[i];
      assert rest != [] ==> s[|w|] == rest[0];
      assert n == |w|;
      assert s[..n] == w && s[n..] == rest;
    } else {
      assert s[0] == sp[0];
      assert s[1..] == sp[1..] + w + rest;
      TokensCons(sp[1..], w, rest);
    }
  }

  /** The non-space characters of `s`, in order. */
  function NonSpace(s: string): string
    decreases |s|
  {
    if s == [] then "" else (if IsSpace(s[0]) then "" else [s[0]]) + NonSpace(s[1..])
  }

  /** The concatenation of all tokens. */
  function Concat(ts: seq<string>): string
    decreases |ts|
  {
    if ts == [] then "" else ts[0] + Concat(ts[1..])
  }

  lemma {:induction false} NonSpaceAppend(a: string, b: string)
    ensures NonSpace(a + b) == NonSpace(a) + NonSpace(b)
    decreases |a|
  {
    if a != [] {
      NonSpaceAppend(a[1..], b);
      assert (a + b)[0] == a[0] && (a + b)[1..] == a[1..] + b;
    } else {
      assert a + b == b;
    }
  }

  lemma {:induction false} NonSpaceOfWord(w: string)
    requires forall i :: 0 <= i < |w| ==> !IsSpace(w[i])
    ensures NonSpace(w) == w
    decreases |w|
  {
    if w != [] {
      NonSpaceOfWord(w[1..]);
      assert [w[0]] + w[1..] == w;
    }
  }

  /** `split()` drops the white space and nothing else: the tokens put back
      together are the non-space characters of `s`, in order. */
  lemma {:induction false} TokensKeepNonSpace(s: string)
    ensures Concat(Tokens(s)) == NonSpace(s)
    decreases |s|
  {
    if s != [] {
      if IsSpace(s[0]) {
        TokensKeepNonSpace(s[1..]);
      } else {
        var n := WordLength(s);
        TokensKeepNonSpace(s[n..]);
        assert s == s[..n] + s[n..];
        NonSpaceAppend(s[..n], s[n..]);
        NonSpaceOfWord(s[..n]);
        assert ([s[..n]] + Tokens(s[n..]))[1..] == Tokens(s[n..]);
      }
    }
  }

  // ---------------------------------------------------------------------
  // Zero padding (`str.zfill`)
  // ---------------------------------------------------------------------

  function Zeros(n: nat): (z: string)
    ensures |z| == n && forall i :: 0 <= i < n ==> z[i] == '0'
  {
    if n == 0 then "" else "0" + Zeros(n - 1)
  }

  /** `s.zfill(width)`: `s` itself when it is already `width` long or longer,
      otherwise `s` left-padded with '0' to exactly `width`, a leading sign
      staying in front of the padding. */
  function ZFill(s: string, width: nat): (r: string)
    ensures |r| == if |s| >= width then |s| else width
    ensures |s| >= width ==> r == s
    ensures |s| < width && (s == [] || (s[0] != '+' && s[0] != '-')) ==>
              r[..width - |s|] == Zeros(width - |s|) && r[width - |s|..] == s
    ensures |s| < width && s != [] && (s[0] == '+' || s[0] == '-') ==>
              r[0] == s[0] && r[1..width - |s| + 1] == Zeros(width - |s|) && r[width - |s| + 1..] == s[1..]
    ensures forall i :: 0 <= i < |r| && r[i] != '0' ==> r[i] in s
  {
    if |s| >= width then s
    else if s != [] && (s[0] == '+' || s[0] == '-') then
      var r := [s[0]] + Zeros(width - |s|) + s[1..];
      assert r[1..width - |s| + 1] == Zeros(width - |s|);
      assert r[width - |s| + 1..] == s[1..];
      r
    else
      var r := Zeros(width - |s|) + s;
      assert r[..width - |s|] == Zeros(width - |s|);
      assert r[width - |s|..] == s;
      r
  }

  predicate IsDigit(c: char) { '0' <= c <= '9' }

  predicate IsDigits(s: string) { forall i :: 0 <= i < |s| ==> IsDigit(s[i]) }

  function Pow10(n: nat): nat {
    if n == 0 then 1 else 10 * Pow10(n - 1)
  }

  /** The number a string of decimal digits denotes. */
  function Value(s: string): nat
    requires IsDigits(s)
    decreases |s|
  {
    if s == [] then 0 else (s[0] as int - '0' as int) * Pow10(|s| - 1) + Value(s[1..])
  }

  lemma {:induction false} LeadingZeros(n: nat, s: string)
    requires IsDigits(s)
    ensures IsDigits(Zeros(n) + s) && Value(Zeros(n) + s) == Value(s)
    decreases n
  {
    if n > 0 {
      LeadingZeros(n - 1, s);
      var t := Zeros(n - 1) + s;
      assert Zeros(n) + s == "0" + t;
      assert ("0" + t)[1..] == t && ("0" + t)[0] == '0';
      assert IsDigits("0" + t) by {
        forall i | 0 <= i < |"0" + t| ensures IsDigit(("0" + t)[i]) {
          if i > 0 { assert ("0" + t)[i] == t[i - 1]; }
        }
      }
      assert Value("0" + t) == 0 * Pow10(|t|) + Value(t);
    } else {
      assert Zeros(n) + s == s;
    }
  }

  /** Padding a number written in digits keeps it a number and keeps its
      value: `zfill` only adds leading zeros to digit strings. */
  lemma ZFillKeepsValue(s: string, width: nat)
    requires IsDigits(s)
    ensures IsDigits(ZFill(s, width)) && Value(ZFill(s, width)) == Value(s)
  {
    if |s| < width {
      assert s == [] || !(s[0] == '+' || s[0] == '-');
      LeadingZeros(width - |s|, s);
    }
  }

  /** Padding is idempotent. */
  lemma ZFillIdempotent(s: string, width: nat)
    ensures ZFill(ZFill(s, width), width) == ZFill(s, width)
  {
  }
}
