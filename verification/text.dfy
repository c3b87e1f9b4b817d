/** Text primitives the Luxrender adapter is built from: substring search (Python's
    `in` / a literal `re.findall`), splitting and joining on a separator, runs of
    tokens each followed by a separator, and Python's `str` of an integer. */
module Text {

  /** `s` begins with `p`. */
  predicate StartsWith(s: string, p: string)
  {
    |p| <= |s| && s[..|p|] == p
  }

  /** `p` occurs in `s` at offset `i`. */
  ghost predicate OccursAt(s: string, p: string, i: int)
  {
    0 <= i && i + |p| <= |s| && s[i..i + |p|] == p
  }

  /** Substring search by scanning `s` left to right, as a literal pattern search does. */
  predicate Contains(s: string, p: string)
    decreases |s|
  {
    StartsWith(s, p) || (|s| > 0 && Contains(s[1..], p))
  }

  /** The scanning search agrees with the positional definition, in both directions. */
  lemma {:induction false} ContainsIffOccurs(s: string, p: string)
    ensures Contains(s, p) <==> exists i :: OccursAt(s, p, i)
    decreases |s|
  {
    if Contains(s, p) {
      if StartsWith(s, p) {
        assert OccursAt(s, p, 0);
      } else {
        ContainsIffOccurs(s[1..], p);
        var i :| OccursAt(s[1..], p, i);
        assert s[1..][i..i + |p|] == s[i + 1..i + 1 + |p|];
        assert OccursAt(s, p, i + 1);
      }
    }
    if exists i :: OccursAt(s, p, i) {
      var i :| OccursAt(s, p, i);
      if i == 0 {
        assert StartsWith(s, p);
      } else {
        assert s[1..][i - 1..i - 1 + |p|] == s[i..i + |p|];
        assert OccursAt(s[1..], p, i - 1);
        ContainsIffOccurs(s[1..], p);
      }
    }
  }

  /** Whatever occurs in a suffix occurs in the whole. */
  lemma {:induction false} ContainsSuffix(s: string, k: nat, p: string)
    requires k <= |s|
    requires Contains(s[k..], p)
    ensures Contains(s, p)
    decreases k
  {
    if k > 0 {
      assert s[1..][k - 1..] == s[k..];
      ContainsSuffix(s[1..], k - 1, p);
    }
  }

  /** Occurrence is transitive: what occurs in a part of `s` occurs in `s`. */
  lemma ContainsTrans(s: string, q: string, p: string)
    ensures Contains(s, q) && Contains(q, p) ==> Contains(s, p)
  {
    if Contains(s, q) && Contains(q, p) {
      ContainsIffOccurs(s, q);
      ContainsIffOccurs(q, p);
      var i :| OccursAt(s, q, i);
      var j :| OccursAt(q, p, j);
      forall k | 0 <= k < |p| ensures s[i + j + k] == p[k] {
        assert s[i..i + |q|][j + k] == q[j + k];
        assert q[j..j + |p|][k] == p[k];
      }
      assert s[i + j..i + j + |p|] == p;
      assert OccursAt(s, p, i + j);
      ContainsIffOccurs(s, p);
    }
  }

  /** Whatever occurs in a prefix occurs in the whole. */
  lemma {:induction false} ContainsPrefix(s: string, k: nat, p: string)
    requires k <= |s|
    requires Contains(s[..k], p)
    ensures Contains(s, p)
    decreases k
  {
    if StartsWith(s[..k], p) {
      assert s[..k][..|p|] == s[..|p|];
    } else {
      assert s[..k][1..] == s[1..][..k - 1];
      ContainsPrefix(s[1..], k - 1, p);
    }
  }

  /** A pattern that occurs is no longer than the text and its first character occurs in it. */
  lemma {:induction false} ContainsBounds(s: string, p: string)
    requires |p| > 0
    requires Contains(s, p)
    ensures |p| <= |s| && p[0] in s
    decreases |s|
  {
    if !StartsWith(s, p) {
      ContainsBounds(s[1..], p);
    } else {
      assert s[0] == p[0];
    }
  }

  /** A character missing from `p` is missing from the prefix of a text that starts with `p`. */
  lemma PrefixAvoids(s: string, p: string, c: char)
    requires StartsWith(s, p) && c !in p
    ensures forall k :: 0 <= k < |p| ==> s[k] != c
  {
    forall k | 0 <= k < |p| ensures s[k] != c {
      assert s[k] == s[..|p|][k] == p[k];
    }
  }

  /** An occurrence in `a + b` that cannot cross `a`'s last character (the pattern never
      contains it) lies wholly in `a` or wholly in `b`. */
  lemma {:induction false} ContainsAcrossBarrier(a: string, b: string, p: string)
    requires |a| > 0 && a[|a| - 1] !in p
    requires Contains(a + b, p)
    ensures Contains(a, p) || Contains(b, p)
    decreases |a|
  {
    if StartsWith(a + b, p) {
      PrefixAvoids(a + b, p, a[|a| - 1]);
      assert (a + b)[|a| - 1] == a[|a| - 1];
      assert (a + b)[..|p|] == a[..|p|];
      assert StartsWith(a, p);
    } else {
      assert (a + b)[1..] == a[1..] + b;
      if |a| == 1 {
        assert a[1..] + b == b;
      } else {
        assert a[1..][|a[1..]| - 1] == a[|a| - 1];
        ContainsAcrossBarrier(a[1..], b, p);
      }
    }
  }

  /** Contrapositive of `ContainsAcrossBarrier`: absent from both sides of a barrier the
      pattern cannot cross means absent from the whole. */
  lemma AbsentAcrossBarrier(a: string, b: string, p: string)
    requires |a| > 0 && a[|a| - 1] !in p
    requires !Contains(a, p) && !Contains(b, p)
    ensures !Contains(a + b, p)
  {
    if Contains(a + b, p) {
      ContainsAcrossBarrier(a, b, p);
    }
  }

  /** An indent without the pattern's first character adds no occurrence in front of a
      text that lacks the pattern. */
  lemma {:induction false} AbsentAfterIndent(indent: string, x: string, p: string)
    requires |p| > 0 && p[0] !in indent
    requires !Contains(x, p)
    ensures !Contains(indent + x, p)
    decreases |indent|
  {
    if |indent| > 0 {
      assert !StartsWith(indent + x, p) by {
        DiffersAt(indent + x, p, 0);
      }
      assert (indent + x)[1..] == indent[1..] + x;
      AbsentAfterIndent(indent[1..], x, p);
    } else {
      assert indent + x == x;
    }
  }

  /** A pattern longer than the text, or whose first character the text lacks, is absent. */
  lemma AbsentPattern(s: string, p: string)
    requires |p| > 0 && (|p| > |s| || p[0] !in s)
    ensures !Contains(s, p)
  {
    if Contains(s, p) {
      ContainsBounds(s, p);
    }
  }

  /** A text that differs from `p` at some position does not start with `p`. */
  lemma DiffersAt(s: string, p: string, i: nat)
    requires i < |s| && i < |p| && s[i] != p[i]
    ensures !StartsWith(s, p)
  {
    if |p| <= |s| {
      assert s[..|p|][i] == s[i];
    }
  }

  /** The fields of `s` between occurrences of `sep` (Python's `s.split(sep)`): never empty,
      and adjacent or trailing separators give empty fields. */
  function Split(s: string, sep: char): (r: seq<string>)
    ensures |r| >= 1
    decreases |s|
  {
    if |s| == 0 then [""]
    else if s[0] == sep then [""] + Split(s[1..], sep)
    else
      var rest := Split(s[1..], sep);
      [[s[0]] + rest[0]] + rest[1..]
  }

  /** The fields `ts` glued with `sep` between consecutive ones (Python's `sep.join(ts)`). */
  function Join(ts: seq<string>, sep: char): string
    decreases |ts|
  {
    if |ts| == 0 then ""
    else if |ts| == 1 then ts[0]
    else ts[0] + [sep] + Join(ts[1..], sep)
  }

  /** `sep` occurs in none of `ts`. */
  predicate Free(ts: seq<string>, sep: char)
  {
    forall i :: 0 <= i < |ts| ==> sep !in ts[i]
  }

  /** A text without the separator is one field. */
  lemma {:induction false} SplitNoSep(a: string, sep: char)
    requires sep !in a
    ensures Split(a, sep) == [a]
    decreases |a|
  {
    if |a| > 0 {
      SplitNoSep(a[1..], sep);
      assert [a[0]] + a[1..] == a;
    }
  }

  /** A separator-free field followed by a separator splits off as the first field. */
  lemma {:induction false} SplitCons(a: string, b: string, sep: char)
    requires sep !in a
    ensures Split(a + [sep] + b, sep) == [a] + Split(b, sep)
    decreases |a|
  {
    if |a| == 0 {
      assert a + [sep] + b == [sep] + b;
      assert ([sep] + b)[1..] == b;
    } else {
      assert (a + [sep] + b)[1..] == a[1..] + [sep] + b;
      SplitCons(a[1..], b, sep);
      assert [a[0]] + a[1..] == a;
    }
  }

  /** A separator splits a text into the fields before it and the fields after it. */
  lemma {:induction false} SplitAppend(a: string, b: string, sep: char)
    ensures Split(a + [sep] + b, sep) == Split(a, sep) + Split(b, sep)
    decreases |a|
  {
    if |a| == 0 {
      assert a + [sep] + b == [sep] + b;
      assert ([sep] + b)[1..] == b;
    } else {
      var s := a + [sep] + b;
      assert s[0] == a[0] && s[1..] == a[1..] + [sep] + b;
      var ra := Split(a[1..], sep);
      var rb := Split(b, sep);
      assert Split(s[1..], sep) == ra + rb by { SplitAppend(a[1..], b, sep); }
      if a[0] != sep {
        assert (ra + rb)[0] == ra[0];
        assert (ra + rb)[1..] == ra[1..] + rb;
      }
    }
  }

  /** Splitting a joined list gives the list back when no field holds the separator. */
  lemma {:induction false} SplitJoin(ts: seq<string>, sep: char)
    requires |ts| >= 1
    requires Free(ts, sep)
    ensures Split(Join(ts, sep), sep) == ts
    decreases |ts|
  {
    if |ts| == 1 {
      SplitNoSep(ts[0], sep);
    } else {
      assert Free(ts[1..], sep) by {
        forall i | 0 <= i < |ts[1..]| ensures sep !in ts[1..][i] {
          assert ts[1..][i] == ts[i + 1];
        }
      }
      SplitJoin(ts[1..], sep);
      assert sep !in ts[0];
      SplitCons(ts[0], Join(ts[1..], sep), sep);
      assert [ts[0]] + ts[1..] == ts;
    }
  }

  /** Every token of `ts` followed by the terminator `t`: how the adapter writes lines
      (`"\n"`) and number runs (`" "`). */
  function Terminated(ts: seq<string>, t: char): string
    decreases |ts|
  {
    if |ts| == 0 then "" else ts[0] + [t] + Terminated(ts[1..], t)
  }

  /** Terminating each token is joining them with one extra empty field at the end. */
  lemma {:induction false} TerminatedIsJoin(ts: seq<string>, t: char)
    ensures Terminated(ts, t) == Join(ts + [""], t)
    decreases |ts|
  {
    if |ts| > 0 {
      TerminatedIsJoin(ts[1..], t);
      assert (ts + [""])[1..] == ts[1..] + [""];
      assert (ts + [""])[0] == ts[0];
    }
  }

  /** Splitting a terminated run gives its tokens in order, then one empty field. */
  lemma SplitTerminated(ts: seq<string>, t: char)
    requires Free(ts, t)
    ensures Split(Terminated(ts, t), t) == ts + [""]
  {
    TerminatedIsJoin(ts, t);
    assert Free(ts + [""], t) by {
      forall i | 0 <= i < |ts + [""]| ensures t !in (ts + [""])[i] {
        if i < |ts| {
          assert (ts + [""])[i] == ts[i];
        }
      }
    }
    SplitJoin(ts + [""], t);
  }

  /** Terminated runs concatenate. */
  lemma {:induction false} TerminatedAppend(a: seq<string>, b: seq<string>, t: char)
    ensures Terminated(a + b, t) == Terminated(a, t) + Terminated(b, t)
    decreases |a|
  {
    if |a| == 0 {
      assert a + b == b;
    } else {
      assert (a + b)[1..] == a[1..] + b;
      TerminatedAppend(a[1..], b, t);
    }
  }

  /** Cutting `s` at `k` in front of an appended `y`: the tail of `s` joins `y`. */
  lemma SplitAt(s: string, k: int, y: string)
    requires 0 <= k <= |s|
    ensures s + y == s[..k] + (s[k..] + y)
  {
    assert s == s[..k] + s[k..];
  }

  /** Dropping the head of a concatenation whose left part is non-empty. */
  lemma DropHead(a: string, y: string)
    requires |a| > 0
    ensures (a + y)[1..] == a[1..] + y
    ensures [a[0]] + (a[1..] + y) == a + y
  {
  }

  /** Regrouping a five-part concatenation so the last three parts form one. */
  lemma Regroup(a: string, b: string, c: string, d: string, e: string)
    ensures a + b + c + d + e == a + b + (c + d + e)
  {
  }

  /** `s` between double quotes, as the scene format writes names and strings. */
  function Quoted(s: string): string
  {
    "\"" + s + "\""
  }

  /** Joining concatenated non-empty lists puts one separator at the seam. */
  lemma {:induction false} JoinAppend(a: seq<string>, b: seq<string>, sep: char)
    requires |a| > 0 && |b| > 0
    ensures Join(a + b, sep) == Join(a, sep) + [sep] + Join(b, sep)
    decreases |a|
  {
    if |a| == 1 {
      assert (a + b)[1..] == b;
    } else {
      assert (a + b)[1..] == a[1..] + b;
      JoinAppend(a[1..], b, sep);
    }
  }

  /** Characters Python's `str` of an integer is made of. */
  predicate IsIntChar(c: char)
  {
    c == '-' || '0' <= c <= '9'
  }

  function DigitChar(d: nat): (c: char)
    requires d < 10
    ensures '0' <= c <= '9'
    ensures c as int - '0' as int == d
  {
    "0123456789"[d]
  }

  /** Python's `str` of a non-negative integer: its decimal digits, most significant first. */
  function NatStr(n: nat): string
    decreases n
  {
    if n < 10 then [DigitChar(n)] else NatStr(n / 10) + [DigitChar(n % 10)]
  }

  /** Decimal digits are never empty, are all digits, and start with `0` only for zero. */
  lemma {:induction false} NatStrDigits(n: nat)
    ensures |NatStr(n)| >= 1
    ensures forall i :: 0 <= i < |NatStr(n)| ==> '0' <= NatStr(n)[i] <= '9'
    ensures NatStr(n)[0] == '0' ==> n == 0
    decreases n
  {
    if n >= 10 {
      NatStrDigits(n / 10);
      var r := NatStr(n);
      assert r[0] == NatStr(n / 10)[0];
      forall i | 0 <= i < |r| ensures '0' <= r[i] <= '9' {
        if i < |r| - 1 {
          assert r[i] == NatStr(n / 10)[i];
        }
      }
    }
  }

  /** The value of a decimal digit string (the inverse of `NatStr`). */
  function DigitsValue(s: string): int
    decreases |s|
  {
    if |s| == 0 then 0 else 10 * DigitsValue(s[..|s| - 1]) + (s[|s| - 1] as int - '0' as int)
  }

  /** Reading back the digits of `NatStr(n)` gives `n`. */
  lemma {:induction false} NatStrRoundTrip(n: nat)
    ensures DigitsValue(NatStr(n)) == n
    decreases n
  {
    var r := NatStr(n);
    NatStrDigits(n);
    if n >= 10 {
      assert r[..|r| - 1] == NatStr(n / 10);
      assert r[|r| - 1] as int - '0' as int == n % 10;
      NatStrRoundTrip(n / 10);
      calc {
        DigitsValue(r);
        10 * DigitsValue(NatStr(n / 10)) + n % 10;
        10 * (n / 10) + n % 10;
      }
    } else {
      assert r[..0] == [];
    }
  }

  /** Python's `str` of an integer: a minus sign for negatives, then the digits. */
  function IntStr(i: int): string
  {
    if i < 0 then "-" + NatStr(-i) else NatStr(i)
  }

  /** Integer text is never empty, holds only a sign and digits, and starts with the
      sign exactly for negatives. */
  lemma IntStrShape(i: int)
    ensures |IntStr(i)| >= 1
    ensures forall k :: 0 <= k < |IntStr(i)| ==> IsIntChar(IntStr(i)[k])
    ensures (IntStr(i)[0] == '-') <==> i < 0
  {
    var r := IntStr(i);
    if i < 0 {
      var m: nat := -i;
      NatStrDigits(m);
      forall k | 0 <= k < |r| ensures IsIntChar(r[k]) {
        if k > 0 {
          assert r[k] == NatStr(m)[k - 1];
        }
      }
    } else {
      NatStrDigits(i);
    }
  }

  /** Reading back an integer's text (the inverse of `IntStr`). */
  function IntValue(s: string): int
  {
    if |s| > 0 && s[0] == '-' then -DigitsValue(s[1..]) else DigitsValue(s)
  }

  /** Reading back `IntStr(i)` gives `i`. */
  lemma IntStrRoundTrip(i: int)
    ensures IntValue(IntStr(i)) == i
  {
    var s := IntStr(i);
    IntStrShape(i);
    if i < 0 {
      var m: nat := -i;
      assert s[1..] == NatStr(m);
      NatStrRoundTrip(m);
    } else {
      NatStrRoundTrip(i);
    }
  }
}
