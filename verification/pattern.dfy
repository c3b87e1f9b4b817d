/** Python's `re.sub` for the one pattern shape the adapter patches resolutions with:
    a quoted key, then `.*?\[.*?\]` -- lazily up to the first `[` and then lazily up
    to the first `]` after it, where `.` never matches a newline. */
module Pattern {
  import opened Text

  datatype Option<T> = None | Some(value: T)

  /** No newline in `s`. */
  predicate OneLine(s: string)
  {
    '\n' !in s
  }

  /** The index of the first `c` in `s`, provided no newline comes before it. */
  function FindOnLine(s: string, c: char): (r: Option<nat>)
    requires c != '\n'
    ensures r.Some? ==> r.value < |s| && s[r.value] == c && OneLine(s[..r.value]) && c !in s[..r.value]
    decreases |s|
  {
    if |s| == 0 then None
    else if s[0] == c then Some(0)
    else if s[0] == '\n' then None
    else match FindOnLine(s[1..], c)
      case None => None
      case Some(k) =>
        assert s[..k + 1] == [s[0]] + s[1..][..k];
        Some(k + 1)
  }

  /** When `FindOnLine` finds nothing, every `c` in `s` has a newline before it. */
  lemma {:induction false} FindOnLineNone(s: string, c: char)
    requires c != '\n' && FindOnLine(s, c).None?
    ensures forall k :: 0 <= k < |s| && s[k] == c ==> '\n' in s[..k]
    decreases |s|
  {
    if |s| > 0 {
      if s[0] != '\n' {
        FindOnLineNone(s[1..], c);
      }
      forall k | 0 <= k < |s| && s[k] == c ensures '\n' in s[..k] {
        if s[0] == '\n' {
          assert s[..k][0] == '\n';
        } else {
          assert s[1..][k - 1] == c;
          var n :| 0 <= n < k - 1 && s[1..][..k - 1][n] == '\n';
          assert s[..k][n + 1] == '\n';
        }
      }
    }
  }

  /** The reference meaning of the pattern: `s[..e]` is the key followed by a one-line
      stretch that contains a `[` and ends with `]`. */
  ghost predicate IsMatch(s: string, key: string, e: int)
  {
    && |key| + 2 <= e <= |s|
    && StartsWith(s, key)
    && s[e - 1] == ']'
    && OneLine(s[|key|..e])
    && '[' in s[|key|..e - 1]
  }

  /** Where the match the lazy pattern picks at the start of `s` ends, if it matches there. */
  function MatchEnd(s: string, key: string): (r: Option<nat>)
    ensures r.Some? ==> |key| + 2 <= r.value <= |s|
  {
    if !StartsWith(s, key) then None
    else match FindOnLine(s[|key|..], '[')
      case None => None
      case Some(a) =>
        var b0 := |key| + a + 1;
        match FindOnLine(s[b0..], ']')
        case None => None
        case Some(b) => Some(b0 + b + 1)
  }

  /** A candidate end: after the key, a stretch that holds a `[` and ends with `]`,
      whether or not it stays on one line. */
  ghost predicate Candidate(s: string, key: string, e: int)
  {
    |key| + 2 <= e <= |s| && s[e - 1] == ']' && '[' in s[|key|..e - 1]
  }

  /** No character of `s[lo..hi]` is `c`. */
  lemma Absent(s: string, lo: int, hi: int, c: char)
    requires 0 <= lo <= hi <= |s| && c !in s[lo..hi]
    ensures forall i :: lo <= i < hi ==> s[i] != c
  {
    forall i | lo <= i < hi ensures s[i] != c {
      assert s[i] == s[lo..hi][i - lo];
    }
  }

  /** A newline at index `n` inside `s[lo..hi]` makes that stretch span lines. */
  lemma NewlineInside(s: string, lo: int, n: int, hi: int)
    requires 0 <= lo <= n < hi <= |s| && s[n] == '\n'
    ensures !OneLine(s[lo..hi])
  {
    assert s[lo..hi][n - lo] == '\n';
  }

  /** The first `[` of a candidate lies at or after the first `[` of the key's line. */
  lemma CandidateBracket(s: string, key: string, e: int, a: nat) returns (j: int)
    requires Candidate(s, key, e)
    requires |key| + a <= |s| && '[' !in s[|key|..|key| + a]
    ensures |key| + a <= j < e - 1 && s[j] == '['
  {
    var K := |key|;
    j :| K <= j < e - 1 && s[j] == '[' by {
      assert '[' in s[K..e - 1];
      var i :| 0 <= i < e - 1 - K && s[K..e - 1][i] == '[';
      assert s[K + i] == '[';
    }
    Absent(s, K, K + a, '[');
  }

  /** With no `[` on the key's line every candidate spans a newline. */
  lemma NoBracketNoMatch(s: string, key: string)
    requires StartsWith(s, key)
    requires FindOnLine(s[|key|..], '[').None?
    ensures forall e :: !IsMatch(s, key, e)
  {
    var K := |key|;
    var tail := s[K..];
    FindOnLineNone(tail, '[');
    forall e | Candidate(s, key, e) ensures !OneLine(s[K..e]) {
      var j := CandidateBracket(s, key, e, 0);
      assert tail[j - K] == '[';
      assert '\n' in tail[..j - K];
      var n :| 0 <= n < j - K && tail[..j - K][n] == '\n';
      NewlineInside(s, K, K + n, e);
    }
  }

  /** With a first `[` at `K + a` but no `]` after it on the line every candidate spans
      a newline. */
  lemma NoCloseNoMatch(s: string, key: string, a: nat)
    requires |key| + a < |s| && '[' !in s[|key|..|key| + a]
    requires FindOnLine(s[|key| + a + 1..], ']').None?
    ensures forall e :: !IsMatch(s, key, e)
  {
    var K := |key|;
    var b0 := K + a + 1;
    var rest := s[b0..];
    FindOnLineNone(rest, ']');
    forall e | Candidate(s, key, e) ensures !OneLine(s[K..e]) {
      var j := CandidateBracket(s, key, e, a);
      assert rest[e - 1 - b0] == ']';
      assert '\n' in rest[..e - 1 - b0];
      var n :| 0 <= n < e - 1 - b0 && rest[..e - 1 - b0][n] == '\n';
      NewlineInside(s, K, b0 + n, e);
    }
  }

  /** The first `]` after the first `[` ends a match, and no match ends sooner. */
  lemma FirstCloseIsShortest(s: string, key: string, a: nat, b: nat)
    requires StartsWith(s, key)
    requires |key| + a < |s| && s[|key| + a] == '[' && '[' !in s[|key|..|key| + a]
    requires OneLine(s[|key|..|key| + a])
    requires |key| + a + 1 + b < |s| && s[|key| + a + 1 + b] == ']'
    requires ']' !in s[|key| + a + 1..|key| + a + 1 + b] && OneLine(s[|key| + a + 1..|key| + a + 1 + b])
    ensures IsMatch(s, key, |key| + a + b + 2)
    ensures forall e :: IsMatch(s, key, e) ==> |key| + a + b + 2 <= e
  {
    var K := |key|;
    var b0 := K + a + 1;
    var e0 := b0 + b + 1;
    assert s[K..e0] == s[K..K + a] + ['['] + s[b0..e0 - 1] + [']'];
    assert s[K..e0 - 1][a] == '[';
    Absent(s, b0, e0 - 1, ']');
    forall e | Candidate(s, key, e) ensures e0 <= e {
      var j := CandidateBracket(s, key, e, a);
    }
  }

  /** Once the first `[` on the key's line is at `K + a`, the lazy pattern's choice is
      the shortest match, and it finds none exactly when there is none. */
  lemma AfterFirstBracket(s: string, key: string, a: nat)
    requires StartsWith(s, key)
    requires |key| + a < |s| && s[|key| + a] == '[' && '[' !in s[|key|..|key| + a]
    requires OneLine(s[|key|..|key| + a])
    ensures var b0 := |key| + a + 1;
            match FindOnLine(s[b0..], ']')
            case Some(b) => IsMatch(s, key, b0 + b + 1) && forall e :: IsMatch(s, key, e) ==> b0 + b + 1 <= e
            case None => forall e :: !IsMatch(s, key, e)
  {
    var b0 := |key| + a + 1;
    var rest := s[b0..];
    match FindOnLine(rest, ']') {
      case None =>
        NoCloseNoMatch(s, key, a);
      case Some(b) =>
        assert rest[..b] == s[b0..b0 + b];
        FirstCloseIsShortest(s, key, a, b);
    }
  }

  /** The lazy pattern matches exactly when a match exists, and the match it picks is the
      shortest one. */
  lemma MatchEndIsShortest(s: string, key: string)
    ensures MatchEnd(s, key).Some? ==> IsMatch(s, key, MatchEnd(s, key).value)
    ensures MatchEnd(s, key).Some? ==> forall e :: IsMatch(s, key, e) ==> MatchEnd(s, key).value <= e
    ensures MatchEnd(s, key).None? ==> forall e :: !IsMatch(s, key, e)
  {
    var K := |key|;
    if StartsWith(s, key) {
      var tail := s[K..];
      match FindOnLine(tail, '[') {
        case None =>
          NoBracketNoMatch(s, key);
        case Some(a) =>
          assert tail[..a] == s[K..K + a];
          AfterFirstBracket(s, key, a);
      }
    }
  }

  /** `re.sub(pattern, rep, s)`: scanning from the left, each match is replaced by `rep`
      and the scan resumes after it; elsewhere the text is copied one character at a time. */
  function SubAll(s: string, key: string, rep: string): string
    decreases |s|
  {
    if |s| == 0 then ""
    else match MatchEnd(s, key)
      case Some(e) => rep + SubAll(s[e..], key, rep)
      case None => [s[0]] + SubAll(s[1..], key, rep)
  }

  /** Where the key does not occur, the substitution leaves the text as it was. */
  lemma {:induction false} SubAllWithoutKey(s: string, key: string, rep: string)
    requires !Contains(s, key)
    ensures SubAll(s, key, rep) == s
    decreases |s|
  {
    if |s| > 0 {
      assert MatchEnd(s, key).None?;
      SubAllWithoutKey(s[1..], key, rep);
      assert [s[0]] + s[1..] == s;
    }
  }

  /** Characters no occurrence of `p` can span: the replacement starts and ends with one. */
  predicate Fenced(rep: string, p: string)
  {
    |rep| > 0 && rep[0] !in p && rep[|rep| - 1] !in p
  }

  /** Where a match starts the substituted text starts with the replacement; elsewhere
      it starts with the original character. */
  lemma SubAllHead(s: string, key: string, rep: string)
    requires |s| > 0 && |rep| > 0
    ensures MatchEnd(s, key).Some? ==> SubAll(s, key, rep)[0] == rep[0]
    ensures MatchEnd(s, key).None? ==> SubAll(s, key, rep)[0] == s[0]
  {
  }

  /** A prefix of the substituted text that contains neither fence character was copied
      unchanged from the original. */
  lemma {:induction false} UnfencedPrefixCopied(s: string, key: string, rep: string, q: string)
    requires Fenced(rep, q)
    requires StartsWith(SubAll(s, key, rep), q)
    ensures StartsWith(s, q)
    decreases |s|
  {
    if |q| > 0 && |s| > 0 {
      var out := SubAll(s, key, rep);
      assert out[0] == q[0] by {
        assert out[..|q|][0] == q[0];
      }
      SubAllHead(s, key, rep);
      assert MatchEnd(s, key).None?;
      var rest := SubAll(s[1..], key, rep);
      assert out == [s[0]] + rest;
      assert rest[..|q| - 1] == out[1..|q|] == q[1..];
      assert Fenced(rep, q[1..]) by {
        assert forall c :: c in q[1..] ==> c in q;
      }
      UnfencedPrefixCopied(s[1..], key, rep, q[1..]);
      assert s[..|q|] == [s[0]] + s[1..][..|q| - 1];
    }
  }

  /** The substitution creates no new occurrence of a pattern that the fence characters
      keep out of the replacement's edges and that the replacement does not hold itself. */
  lemma {:induction false} SubAllCreatesNoOccurrence(s: string, key: string, rep: string, p: string)
    requires |p| > 0
    requires Fenced(rep, p)
    requires !Contains(rep, p)
    requires Contains(SubAll(s, key, rep), p)
    ensures Contains(s, p)
    decreases |s|
  {
    var out := SubAll(s, key, rep);
    if |s| == 0 {
      ContainsBounds(out, p);
    } else {
      match MatchEnd(s, key)
      case Some(e) =>
        var rest := SubAll(s[e..], key, rep);
        assert out == rep + rest;
        ContainsAcrossBarrier(rep, rest, p);
        SubAllCreatesNoOccurrence(s[e..], key, rep, p);
        ContainsSuffix(s, e, p);
      case None =>
        var rest := SubAll(s[1..], key, rep);
        assert out == [s[0]] + rest;
        if StartsWith(out, p) {
          assert StartsWith(rest, p[1..]) by {
            assert rest[..|p| - 1] == out[1..|p|] == p[1..];
          }
          assert Fenced(rep, p[1..]) by {
            assert forall c :: c in p[1..] ==> c in p;
          }
          UnfencedPrefixCopied(s[1..], key, rep, p[1..]);
          assert s[..|p|] == [s[0]] + s[1..][..|p| - 1];
          assert StartsWith(s, p);
        } else {
          assert out[1..] == rest;
          SubAllCreatesNoOccurrence(s[1..], key, rep, p);
          ContainsSuffix(s, 1, p);
        }
    }
  }

  /** `FindOnLine` finds the first `c` when no newline precedes it. */
  lemma {:induction false} FindOnLineFirst(s: string, c: char, k: nat)
    requires c != '\n' && k < |s| && s[k] == c
    requires c !in s[..k] && OneLine(s[..k])
    ensures FindOnLine(s, c) == Some(k)
    decreases k
  {
    if k > 0 {
      assert s[0] == s[..k][0];
      assert s[1..][..k - 1] == s[1..k];
      assert forall x :: x in s[1..k] ==> x in s[..k];
      FindOnLineFirst(s[1..], c, k - 1);
    }
  }

  /** The first `c` after a one-line stretch without `c` is found. */
  lemma FindAfter(a: string, c: char, rest: string)
    requires c != '\n' && c !in a && OneLine(a)
    ensures FindOnLine(a + [c] + rest, c) == Some(|a|)
  {
    var s := a + [c] + rest;
    assert s[..|a|] == a;
    FindOnLineFirst(s, c, |a|);
  }

  /** The pieces of a declaration text, as the pattern sees them. */
  lemma DeclarationParts(key: string, mid: string, prev: string, rest: string)
    ensures var s := key + mid + "[" + prev + "]" + rest;
            && StartsWith(s, key)
            && s[|key|..] == mid + ['['] + (prev + "]" + rest)
            && s[|key| + |mid| + 1..] == prev + [']'] + rest
  {
    var s := key + mid + "[" + prev + "]" + rest;
    assert s[..|key|] == key;
  }

  /** A declaration `key mid [prev]` on one line is matched up to its closing bracket. */
  lemma MatchOfDeclaration(key: string, mid: string, prev: string, rest: string)
    requires '[' !in mid && OneLine(mid) && ']' !in prev && OneLine(prev)
    ensures MatchEnd(key + mid + "[" + prev + "]" + rest, key) == Some(|key| + |mid| + |prev| + 2)
  {
    DeclarationParts(key, mid, prev, rest);
    FindAfter(mid, '[', prev + "]" + rest);
    FindAfter(prev, ']', rest);
  }

  /** Where no match starts, the substitution copies one character and moves on. */
  lemma SubAllNoMatch(s: string, key: string, rep: string)
    requires |s| > 0 && MatchEnd(s, key) == None
    ensures SubAll(s, key, rep) == [s[0]] + SubAll(s[1..], key, rep)
  {
  }

  /** No match starts in a key-free text that ends in a character the key lacks. */
  lemma NoMatchBeforeBarrier(before: string, x: string, key: string)
    requires |before| > 0 && before[|before| - 1] !in key
    requires !Contains(before, key)
    ensures MatchEnd(before + x, key) == None
  {
    var s := before + x;
    if |key| <= |before| {
      assert s[..|key|] == before[..|key|];
    } else {
      DiffersAt(s, key, |before| - 1);
    }
  }

  /** A text before the first match, ending in a character the key lacks, is copied. */
  lemma {:induction false} SubAllSkipsPrefix(before: string, x: string, key: string, rep: string)
    requires |before| > 0 && before[|before| - 1] !in key
    requires !Contains(before, key)
    ensures SubAll(before + x, key, rep) == before + SubAll(x, key, rep)
    decreases |before|
  {
    var s := before + x;
    var tail := before[1..];
    assert MatchEnd(s, key) == None by {
      NoMatchBeforeBarrier(before, x, key);
    }
    DropHead(before, x);
    DropHead(before, SubAll(x, key, rep));
    assert SubAll(tail + x, key, rep) == tail + SubAll(x, key, rep) by {
      if |tail| > 0 {
        assert tail[|tail| - 1] == before[|before| - 1];
        SubAllSkipsPrefix(tail, x, key, rep);
      } else {
        assert tail + x == x;
      }
    }
    SubAllNoMatch(s, key, rep);
  }

  /** At a match the substitution emits the replacement and resumes after the match. */
  lemma SubAllAtMatch(s: string, key: string, rep: string, e: nat)
    requires |s| > 0 && MatchEnd(s, key) == Some(e)
    ensures SubAll(s, key, rep) == rep + SubAll(s[e..], key, rep)
  {
  }

  /** One one-line declaration `key mid [prev]` followed by a key-free `rest` becomes
      the replacement followed by `rest`. */
  lemma SubAllOneDeclaration(key: string, mid: string, prev: string, rest: string, rep: string)
    requires '[' !in mid && OneLine(mid) && ']' !in prev && OneLine(prev)
    requires !Contains(rest, key)
    ensures SubAll(key + mid + "[" + prev + "]" + rest, key, rep) == rep + rest
  {
    var decl := key + mid + "[" + prev + "]" + rest;
    var e := |key| + |mid| + |prev| + 2;
    assert SubAll(decl, key, rep) == rep + SubAll(decl[e..], key, rep) by {
      MatchOfDeclaration(key, mid, prev, rest);
      SubAllAtMatch(decl, key, rep, e);
    }
    assert decl[e..] == rest;
    SubAllWithoutKey(rest, key, rep);
  }

  /** `before[k..]` is the indent of the line a declaration starts: `k` is a line start
      and the indent holds no `c`, the first character of the quoted key. */
  predicate LineIndent(before: string, k: int, c: char)
  {
    && 0 <= k <= |before|
    && (k == 0 || before[k - 1] == '\n')
    && c !in before[k..]
  }

  /** An indent that lacks the key's first character is copied in front of the
      substitution of what follows it. */
  lemma {:induction false} SubAllSkipsIndent(indent: string, x: string, key: string, rep: string)
    requires |key| > 0 && key[0] !in indent
    ensures SubAll(indent + x, key, rep) == indent + SubAll(x, key, rep)
    decreases |indent|
  {
    if |indent| > 0 {
      var s := indent + x;
      assert MatchEnd(s, key) == None by {
        DiffersAt(s, key, 0);
      }
      DropHead(indent, x);
      DropHead(indent, SubAll(x, key, rep));
      SubAllSkipsIndent(indent[1..], x, key, rep);
      SubAllNoMatch(s, key, rep);
    } else {
      assert indent + x == x;
    }
  }

  /** Whole lines without a one-line pattern, then an indent without its first character:
      the pattern is absent and a declaration may start right after the indent. */
  lemma LinesThenIndent(head: string, indent: string, p: string)
    requires |p| > 0 && OneLine(p) && p[0] !in indent
    requires |head| > 0 && head[|head| - 1] == '\n' && !Contains(head, p)
    ensures LineIndent(head + indent, |head|, p[0])
    ensures !Contains(head + indent, p)
  {
    assert (head + indent)[|head|..] == indent;
    AbsentPattern(indent, p);
    AbsentAcrossBarrier(head, indent, p);
  }

  /** A one-line pattern that starts with a character the indent lacks is absent from
      text made of whole lines, the indent, and a text without it. */
  lemma AbsentAfterLineIndent(before: string, x: string, p: string, k: int)
    requires |p| > 0 && OneLine(p)
    requires LineIndent(before, k, p[0])
    requires !Contains(before, p) && !Contains(x, p)
    ensures !Contains(before + x, p)
  {
    if k > 0 {
      SplitAt(before, k, x);
      AbsentAfterIndent(before[k..], x, p);
      AbsentInLines(before, k, p);
      AbsentAcrossBarrier(before[..k], before[k..] + x, p);
    } else {
      assert before[k..] == before;
      AbsentAfterIndent(before, x, p);
    }
  }

  /** Whole lines of a text without a one-line pattern lack it too, and end in a
      newline the pattern cannot cross. */
  lemma AbsentInLines(before: string, k: int, p: string)
    requires OneLine(p)
    requires 0 < k <= |before| && before[k - 1] == '\n'
    requires !Contains(before, p)
    ensures !Contains(before[..k], p)
    ensures before[..k][k - 1] !in p
  {
    if Contains(before[..k], p) {
      ContainsPrefix(before, k, p);
    }
  }

  /** Whole lines without the key are copied in front of the substitution of the rest. */
  lemma SubAllSkipsLines(before: string, k: int, y: string, key: string, rep: string)
    requires OneLine(key)
    requires 0 < k <= |before| && before[k - 1] == '\n'
    requires !Contains(before, key)
    ensures SubAll(before[..k] + y, key, rep) == before[..k] + SubAll(y, key, rep)
  {
    AbsentInLines(before, k, key);
    SubAllSkipsPrefix(before[..k], y, key, rep);
  }

  /** Text up to the start of a declaration -- whole lines without the key, then an
      indent without the key's first character -- is copied unchanged. */
  lemma SubAllSkipsLineIndent(before: string, k: int, y: string, key: string, rep: string)
    requires OneLine(key) && |key| > 0
    requires LineIndent(before, k, key[0])
    requires !Contains(before, key)
    ensures SubAll(before + y, key, rep) == before + SubAll(y, key, rep)
  {
    if k > 0 {
      SplitAt(before, k, y);
      SplitAt(before, k, SubAll(y, key, rep));
      SubAllSkipsIndent(before[k..], y, key, rep);
      SubAllSkipsLines(before, k, before[k..] + y, key, rep);
    } else {
      assert before[k..] == before;
      SubAllSkipsIndent(before, y, key, rep);
    }
  }

  /** Substituting in `before`, one one-line declaration `key mid [prev]` that starts a
      line after an indent, and a key-free `rest`, replaces exactly that declaration. */
  lemma SubAllDeclaration(before: string, key: string, mid: string, prev: string, rest: string, rep: string,
                          k: int)
    requires OneLine(key) && |key| > 0
    requires LineIndent(before, k, key[0])
    requires !Contains(before, key) && !Contains(rest, key)
    requires '[' !in mid && OneLine(mid) && ']' !in prev && OneLine(prev)
    ensures SubAll(before + (key + mid + "[" + prev + "]" + rest), key, rep) == before + rep + rest
  {
    var decl := key + mid + "[" + prev + "]" + rest;
    assert SubAll(decl, key, rep) == rep + rest by {
      SubAllOneDeclaration(key, mid, prev, rest, rep);
    }
    SubAllSkipsLineIndent(before, k, decl, key, rep);
  }
}
