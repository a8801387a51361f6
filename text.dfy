/** The java.lang.String operations the core relies on, as functions on
    sequences of characters: replace-all, split on one character, decimal
    rendering of a long, and the lemmas the request handlers need about them. */
module Text {

  predicate StartsWith(s: string, prefix: string) {
    |prefix| <= |s| && s[..|prefix|] == prefix
  }

  /** A prefix one character longer: the shorter prefix, then that character. */
  lemma StartsWithExtended(s: string, prefix: string, c: char)
    ensures StartsWith(s, prefix + [c]) <==> StartsWith(s, prefix) && |s| > |prefix| && s[|prefix|] == c
  {
    if StartsWith(s, prefix) && |s| > |prefix| && s[|prefix|] == c {
      assert s[..|prefix| + 1] == s[..|prefix|] + [c];
    }
    if StartsWith(s, prefix + [c]) {
      assert s[..|prefix|] == s[..|prefix| + 1][..|prefix|];
    }
  }

  /** `p` occurs in `s` starting at index `i`. */
  predicate OccursAt(s: string, p: string, i: nat) {
    i + |p| <= |s| && s[i..i + |p|] == p
  }

  predicate Contains(s: string, p: string) {
    exists i: nat | i <= |s| :: OccursAt(s, p, i)
  }

  lemma OccursAtShift(s: string, t: string, p: string, i: nat)
    requires OccursAt(t, p, i)
    ensures OccursAt(s + t, p, |s| + i)
  {
    assert (s + t)[|s| + i..|s| + i + |p|] == t[i..i + |p|];
  }

  lemma OccursAtTail(s: string, p: string, i: nat)
    requires |s| > 0 && OccursAt(s[1..], p, i)
    ensures OccursAt(s, p, i + 1)
  {
    assert s[i + 1..i + 1 + |p|] == s[1..][i..i + |p|];
  }

  /** String.replace(target, replacement): every occurrence of `p`, found
      left to right without overlap, is replaced by `rep`. */
  function ReplaceAll(s: string, p: string, rep: string): (r: string)
    requires |p| > 0
    ensures |s| < |p| ==> r == s
    ensures |rep| == |p| ==> |r| == |s|
    decreases |s|
  {
    if |s| < |p| then s
    else if s[..|p|] == p then rep + ReplaceAll(s[|p|..], p, rep)
    else [s[0]] + ReplaceAll(s[1..], p, rep)
  }

  /** Replacing a word that does not occur, or replacing a word by itself,
      changes nothing. */
  lemma {:induction false} ReplaceAllIdentity(s: string, p: string, rep: string)
    requires |p| > 0
    ensures !Contains(s, p) ==> ReplaceAll(s, p, rep) == s
    ensures rep == p ==> ReplaceAll(s, p, rep) == s
    decreases |s|
  {
    if |s| >= |p| {
      if s[..|p|] == p {
        assert OccursAt(s, p, 0);
        ReplaceAllIdentity(s[|p|..], p, rep);
        assert p + s[|p|..] == s;
      } else {
        ReplaceAllIdentity(s[1..], p, rep);
        assert !Contains(s, p) ==> !Contains(s[1..], p) by {
          if Contains(s[1..], p) {
            var i: nat :| i <= |s| && OccursAt(s[1..], p, i);
            OccursAtTail(s, p, i);
          }
        }
        assert [s[0]] + s[1..] == s;
      }
    }
  }

  /** Text without the first character of `p` is copied through unchanged. */
  lemma {:induction false} ReplaceAllAfterPlainText(a: string, t: string, p: string, rep: string)
    requires |p| > 0 && p[0] !in a
    ensures ReplaceAll(a + t, p, rep) == a + ReplaceAll(t, p, rep)
    decreases |a|
  {
    if |a| == 0 {
      assert a + t == t;
    } else {
      var s := a + t;
      assert s[0] == a[0] && s[1..] == a[1..] + t;
      ReplaceAllAfterPlainText(a[1..], t, p, rep);
      if |s| < |p| {
        assert |t| < |p|;
        assert ReplaceAll(t, p, rep) == t;
        assert ReplaceAll(s, p, rep) == s;
      } else {
        assert s[..|p|] != p by { assert s[..|p|][0] == a[0]; }
        assert ReplaceAll(s, p, rep) == [s[0]] + ReplaceAll(s[1..], p, rep);
        assert [a[0]] + a[1..] == a;
      }
    }
  }

  /** An occurrence of `p` after text without its first character is the
      first one replaced. */
  lemma ReplaceAllFirstMatch(a: string, t: string, p: string, rep: string)
    requires |p| > 0 && p[0] !in a
    ensures ReplaceAll(a + p + t, p, rep) == a + rep + ReplaceAll(t, p, rep)
  {
    ReplaceAllAfterPlainText(a, p + t, p, rep);
    assert a + p + t == a + (p + t);
    assert (p + t)[..|p|] == p && (p + t)[|p|..] == t;
  }

  /** A prefix of `t` that cannot start an occurrence of `p` survives the
      replacement unchanged. */
  lemma {:induction false} ReplaceAllKeepsPrefix(t: string, p: string, rep: string, u: string)
    requires |p| > 0 && StartsWith(t, u) && p[0] !in u
    ensures StartsWith(ReplaceAll(t, p, rep), u)
    decreases |u|
  {
    if |u| > 0 {
      assert t[0] == u[0] && t[0] != p[0];
      if |t| >= |p| {
        assert t[..|p|] != p by { assert t[..|p|][0] == t[0]; }
        assert StartsWith(t[1..], u[1..]) by { assert t[1..][..|u| - 1] == t[..|u|][1..]; }
        ReplaceAllKeepsPrefix(t[1..], p, rep, u[1..]);
        assert ReplaceAll(t, p, rep) == [t[0]] + ReplaceAll(t[1..], p, rep);
        var r := ReplaceAll(t[1..], p, rep);
        assert ([t[0]] + r)[..|u|] == [t[0]] + r[..|u| - 1];
        assert u == [u[0]] + u[1..];
      }
    }
  }

  /** A prefix of the result made of characters the replacement text does not
      contain was already a prefix of the input. */
  lemma {:induction false} ReplaceAllPrefixFromInput(t: string, p: string, rep: string, u: string)
    requires |p| > 0 && |rep| > 0
    requires forall k :: 0 <= k < |u| ==> u[k] !in rep
    ensures StartsWith(ReplaceAll(t, p, rep), u) ==> StartsWith(t, u)
    decreases |t|
  {
    if |u| > 0 && |t| >= |p| {
      var r := ReplaceAll(t, p, rep);
      if t[..|p|] == p {
        // the result starts with rep[0], which u[0] is not
        assert r[0] == rep[0];
      } else {
        var x := ReplaceAll(t[1..], p, rep);
        assert r == [t[0]] + x;
        if StartsWith(r, u) {
          assert ([t[0]] + x)[..|u|] == [t[0]] + x[..|u| - 1];
          assert StartsWith(x, u[1..]);
          ReplaceAllPrefixFromInput(t[1..], p, rep, u[1..]);
          assert t[..|u|] == [t[0]] + t[1..][..|u| - 1];
          assert u == [u[0]] + u[1..];
        }
      }
    }
  }

  /** Text starting with `rep`, followed by text free of `p`, is free of `p`
      when `rep` holds no character of `p`. */
  lemma NoMatchAfterReplacement(rep: string, x: string, p: string)
    requires |p| > 0 && |rep| > 0
    requires forall k :: 0 <= k < |p| ==> p[k] !in rep
    requires !Contains(x, p)
    ensures !Contains(rep + x, p)
  {
    var r := rep + x;
    forall i: nat | i <= |r| ensures !OccursAt(r, p, i) {
      if i < |rep| {
        // r[i] belongs to rep, and p[0] does not
        assert r[i] == rep[i];
        if i + |p| <= |r| { assert r[i..i + |p|][0] == r[i]; }
      } else if i + |p| <= |r| {
        assert r[i..i + |p|] == x[i - |rep|..i - |rep| + |p|];
        assert !OccursAt(x, p, i - |rep|);
      }
    }
  }

  /** A character before text free of `p` leaves no occurrence of `p`,
      unless the two together start with `p`. */
  lemma NoMatchAfterChar(c: char, x: string, p: string)
    requires |p| > 0 && !Contains(x, p) && !StartsWith([c] + x, p)
    ensures !Contains([c] + x, p)
  {
    var r := [c] + x;
    forall i: nat | i <= |r| ensures !OccursAt(r, p, i) {
      if 0 < i && i + |p| <= |r| {
        assert r[i..i + |p|] == x[i - 1..i - 1 + |p|];
        assert !OccursAt(x, p, i - 1);
      }
    }
  }

  /** If every prefix w[1..] of `x` is one of `t`, then `c` before `x` starts
      with `w` only if `c` before `t` does. */
  lemma PrefixThroughChar(c: char, t: string, x: string, w: string)
    requires |w| > 0 && (StartsWith(x, w[1..]) ==> StartsWith(t, w[1..]))
    requires !StartsWith([c] + t, w)
    ensures !StartsWith([c] + x, w)
  {
    if |w| <= |[c] + x| {
      assert ([c] + x)[..|w|] == [c] + x[..|w| - 1];
    }
    if |w| <= |[c] + t| {
      assert ([c] + t)[..|w|] == [c] + t[..|w| - 1];
    }
    assert w == [w[0]] + w[1..];
  }

  /** One character copied through before text free of `w` leaves no
      occurrence of `w`, when `s` itself does not start with `w` and the
      replacement text holds no character of `w`. */
  lemma NoWordAfterCopiedChar(s: string, p: string, rep: string, w: string)
    requires |p| > 0 && |rep| > 0 && |w| > 0 && |s| > 0 && !StartsWith(s, w)
    requires forall k :: 0 <= k < |w| ==> w[k] !in rep
    requires !Contains(ReplaceAll(s[1..], p, rep), w)
    ensures !Contains([s[0]] + ReplaceAll(s[1..], p, rep), w)
  {
    var x := ReplaceAll(s[1..], p, rep);
    ReplaceAllPrefixFromInput(s[1..], p, rep, w[1..]);
    assert [s[0]] + s[1..] == s;
    PrefixThroughChar(s[0], s[1..], x, w);
    NoMatchAfterChar(s[0], x, w);
  }

  /** When the replacement text shares no character with `p`, no occurrence
      of `p` is left after replace-all. */
  lemma {:induction false} ReplaceAllRemoves(s: string, p: string, rep: string)
    requires |p| > 0 && |rep| > 0
    requires forall k :: 0 <= k < |p| ==> p[k] !in rep
    ensures !Contains(ReplaceAll(s, p, rep), p)
    decreases |s|
  {
    if |s| < |p| {
      assert ReplaceAll(s, p, rep) == s;
    } else if s[..|p|] == p {
      ReplaceAllRemoves(s[|p|..], p, rep);
      NoMatchAfterReplacement(rep, ReplaceAll(s[|p|..], p, rep), p);
    } else {
      ReplaceAllRemoves(s[1..], p, rep);
      NoWordAfterCopiedChar(s, p, rep, p);
    }
  }

  /** Replace-all creates no occurrence of a word none of whose characters
      is in the replacement text. */
  lemma {:induction false} ReplaceAllKeepsAbsent(s: string, p: string, rep: string, w: string)
    requires |p| > 0 && |rep| > 0 && |w| > 0
    requires forall k :: 0 <= k < |w| ==> w[k] !in rep
    requires !Contains(s, w)
    ensures !Contains(ReplaceAll(s, p, rep), w)
    decreases |s|
  {
    if |s| < |p| {
      assert ReplaceAll(s, p, rep) == s;
    } else if s[..|p|] == p {
      var t := s[|p|..];
      forall j: nat | j <= |t| ensures !OccursAt(t, w, j) {
        if j + |w| <= |t| {
          assert t[j..j + |w|] == s[|p| + j..|p| + j + |w|];
          assert !OccursAt(s, w, |p| + j);
        }
      }
      ReplaceAllKeepsAbsent(t, p, rep, w);
      NoMatchAfterReplacement(rep, ReplaceAll(t, p, rep), w);
    } else {
      var t := s[1..];
      forall j: nat | j <= |t| ensures !OccursAt(t, w, j) {
        if j + |w| <= |t| {
          assert t[j..j + |w|] == s[1 + j..1 + j + |w|];
          assert !OccursAt(s, w, 1 + j);
        }
      }
      ReplaceAllKeepsAbsent(t, p, rep, w);
      assert !OccursAt(s, w, 0);
      NoWordAfterCopiedChar(s, p, rep, w);
    }
  }

  /** A word that is not a prefix-match of `p` and whose first character does
      not occur in p[1..] cannot start inside an occurrence of `p`. */
  lemma NoWordInsideMatch(s: string, p: string, w: string, i: nat)
    requires |p| > 0 && |w| > 0 && StartsWith(s, p) && i < |p|
    requires w[0] !in p[1..] && !StartsWith(w, p) && !StartsWith(p, w)
    ensures !OccursAt(s, w, i)
  {
    if i + |w| <= |s| {
      if i == 0 {
        if |w| <= |p| {
          assert s[..|w|] == p[..|w|];
        } else {
          assert s[..|w|][..|p|] == p;
        }
      } else {
        assert p[1..][i - 1] == p[i] == s[i];
        assert s[i..i + |w|][0] == s[i];
      }
    }
  }

  /** An occurrence of `w` survives the replacement of `p` when neither word
      is a prefix of the other and neither can start inside the other. */
  lemma {:induction false} ReplaceAllKeepsWord(s: string, p: string, rep: string, w: string, i: nat)
    requires |p| > 0 && |w| > 0
    requires p[0] !in w[1..] && w[0] !in p[1..]
    requires !StartsWith(w, p) && !StartsWith(p, w)
    ensures OccursAt(s, w, i) ==> Contains(ReplaceAll(s, p, rep), w)
    decreases |s|
  {
    var r := ReplaceAll(s, p, rep);
    if |s| < |p| {
      if OccursAt(s, w, i) {
        assert OccursAt(r, w, i);
      }
    } else if s[..|p|] == p {
      if i < |p| {
        NoWordInsideMatch(s, p, w, i);
      } else if OccursAt(s, w, i) {
        assert s[|p|..][i - |p|..i - |p| + |w|] == s[i..i + |w|];
        ReplaceAllKeepsWord(s[|p|..], p, rep, w, i - |p|);
        var x := ReplaceAll(s[|p|..], p, rep);
        var j: nat :| j <= |x| && OccursAt(x, w, j);
        OccursAtShift(rep, x, w, j);
      }
    } else if OccursAt(s, w, i) {
      var x := ReplaceAll(s[1..], p, rep);
      assert r == [s[0]] + x;
      if i == 0 {
        assert StartsWith(s[1..], w[1..]) by { assert s[1..][..|w| - 1] == s[..|w|][1..]; }
        ReplaceAllKeepsPrefix(s[1..], p, rep, w[1..]);
        assert r[..|w|] == [s[0]] + x[..|w| - 1];
        assert w == [w[0]] + w[1..];
        assert OccursAt(r, w, 0);
      } else {
        assert s[1..][i - 1..i - 1 + |w|] == s[i..i + |w|];
        ReplaceAllKeepsWord(s[1..], p, rep, w, i - 1);
        var j: nat :| j <= |x| && OccursAt(x, w, j);
        OccursAtShift([s[0]], x, w, j);
      }
    }
  }

  lemma ReplaceAllKeepsContained(s: string, p: string, rep: string, w: string)
    requires |p| > 0 && |w| > 0
    requires p[0] !in w[1..] && w[0] !in p[1..]
    requires !StartsWith(w, p) && !StartsWith(p, w)
    requires Contains(s, w)
    ensures Contains(ReplaceAll(s, p, rep), w)
  {
    var i: nat :| i <= |s| && OccursAt(s, w, i);
    ReplaceAllKeepsWord(s, p, rep, w, i);
  }

  function DigitChar(d: nat): (c: char)
    requires d < 10
    ensures '0' <= c <= '9' && c as int - '0' as int == d
  {
    ('0' as int + d) as char
  }

  predicate IsDigit(c: char) {
    '0' <= c <= '9'
  }

  /** Decimal digits of a natural number, most significant first. */
  function NatToString(n: nat): (r: string)
    ensures |r| > 0
    ensures forall k :: 0 <= k < |r| ==> IsDigit(r[k])
    decreases n
  {
    if n < 10 then [DigitChar(n)] else NatToString(n / 10) + [DigitChar(n % 10)]
  }

  /** Long.toString: a minus sign before the digits of a negative number. */
  function IntToString(i: int): (r: string)
    ensures forall k :: 0 <= k < |r| ==> IsDigit(r[k]) || r[k] == '-'
    ensures |r| > 0 && (r[0] == '-' <==> i < 0)
  {
    if i < 0 then "-" + NatToString(-i) else NatToString(i)
  }

  /** The number a string of decimal digits denotes. */
  function NatValue(s: string): nat
    decreases |s|
  {
    if |s| == 0 then 0
    else NatValue(s[..|s| - 1]) * 10 + (if IsDigit(s[|s| - 1]) then s[|s| - 1] as int - '0' as int else 0)
  }

  /** The number an optionally signed string of decimal digits denotes. */
  function DecimalValue(s: string): int {
    if |s| > 0 && s[0] == '-' then -(NatValue(s[1..]) as int) else NatValue(s)
  }

  /** The digits of a natural number denote it. */
  lemma {:induction false} NatToStringRoundTrip(n: nat)
    ensures NatValue(NatToString(n)) == n
    decreases n
  {
    var s := NatToString(n);
    if n < 10 {
      assert s[..|s| - 1] == [];
    } else {
      NatToStringRoundTrip(n / 10);
      assert s[..|s| - 1] == NatToString(n / 10);
    }
  }

  /** Long.toString is read back as the same number. */
  lemma IntToStringRoundTrip(i: int)
    ensures DecimalValue(IntToString(i)) == i
  {
    if i < 0 {
      NatToStringRoundTrip(-i);
      assert IntToString(i)[1..] == NatToString(-i);
    } else {
      NatToStringRoundTrip(i);
    }
  }

  /** The pieces of `s` between occurrences of `sep`, empty pieces included. */
  function Pieces(s: string, sep: char): (r: seq<string>)
    ensures |r| > 0
    ensures forall k :: 0 <= k < |r| ==> sep !in r[k]
    decreases |s|
  {
    if |s| == 0 then [""]
    else
      var rest := Pieces(s[1..], sep);
      if s[0] == sep then [""] + rest else [[s[0]] + rest[0]] + rest[1..]
  }

  function DropTrailingEmpty(pieces: seq<string>): (r: seq<string>)
    ensures |r| <= |pieces| && r == pieces[..|r|]
    ensures |r| > 0 ==> r[|r| - 1] != ""
    ensures forall k :: |r| <= k < |pieces| ==> pieces[k] == ""
    decreases |pieces|
  {
    if |pieces| == 0 then []
    else if pieces[|pieces| - 1] == "" then DropTrailingEmpty(pieces[..|pieces| - 1])
    else pieces
  }

  /** String.split on a one-character separator: when the separator occurs,
      the pieces without the trailing empty ones; otherwise the whole string. */
  function Split(s: string, sep: char): (r: seq<string>)
    ensures sep !in s ==> r == [s]
    ensures forall k :: 0 <= k < |r| ==> sep !in r[k]
    ensures sep in s && |r| > 0 ==> r[|r| - 1] != ""
  {
    if sep in s then DropTrailingEmpty(Pieces(s, sep)) else [s]
  }

  lemma {:induction false} PiecesWithoutSeparator(s: string, sep: char)
    requires sep !in s
    ensures Pieces(s, sep) == [s]
    decreases |s|
  {
    if |s| > 0 {
      PiecesWithoutSeparator(s[1..], sep);
      assert [s[0]] + s[1..] == s;
    }
  }

  lemma {:induction false} PiecesAfterWord(a: string, sep: char, s: string)
    requires sep !in a
    ensures Pieces(a + [sep] + s, sep) == [a] + Pieces(s, sep)
    decreases |a|
  {
    if |a| == 0 {
      assert a + [sep] + s == [sep] + s;
      assert ([sep] + s)[1..] == s;
    } else {
      assert (a + [sep] + s)[1..] == a[1..] + [sep] + s;
      PiecesAfterWord(a[1..], sep, s);
      assert [a[0]] + a[1..] == a;
    }
  }

  lemma {:induction false} DropTrailingEmptyAppend(x: seq<string>, y: seq<string>)
    requires |x| > 0 && x[|x| - 1] != ""
    ensures DropTrailingEmpty(x + y) == x + DropTrailingEmpty(y)
    decreases |y|
  {
    if |y| == 0 {
      assert x + y == x;
    } else if y[|y| - 1] == "" {
      assert (x + y)[..|x + y| - 1] == x + y[..|y| - 1];
      DropTrailingEmptyAppend(x, y[..|y| - 1]);
    }
  }
}
