/** The few `str` operations the script generator uses, on `seq<char>`:
    `split` on a one-character separator, `join`, `replace` of one character,
    and the substring test `in`. */
module Text {

  /** Number of occurrences of `c` in `s`. */
  function Count(s: string, c: char): nat
  {
    if |s| == 0 then 0 else (if s[0] == c then 1 else 0) + Count(s[1..], c)
  }

  /** `s.split(sep)` for a one-character separator: every occurrence
      separates two pieces, empty pieces are kept, and there is always at
      least one piece. */
  function Split(s: string, sep: char): (parts: seq<string>)
    ensures |parts| >= 1
    decreases |s|
  {
    if |s| == 0 then [""]
    else
      var rest := Split(s[1..], sep);
      if s[0] == sep then [""] + rest
      else [[s[0]] + rest[0]] + rest[1..]
  }

  /** `sep.join(parts)`. */
  function Join(parts: seq<string>, sep: string): string
  {
    if |parts| == 0 then ""
    else if |parts| == 1 then parts[0]
    else parts[0] + sep + Join(parts[1..], sep)
  }

  /** `s.replace(target, replacement)` for a one-character target: every
      occurrence, left to right, is replaced. */
  function ReplaceChar(s: string, target: char, replacement: string): (r: string)
    ensures target !in s ==> r == s
    ensures forall ch :: ch in r ==> ch in replacement || (ch in s && ch != target)
    ensures forall ch :: ch in s && ch != target ==> ch in r
  {
    if |s| == 0 then ""
    else
      assert forall ch :: ch in s ==> ch == s[0] || ch in s[1..];
      (if s[0] == target then replacement else [s[0]]) + ReplaceChar(s[1..], target, replacement)
  }

  /** `p` occurs in `s` starting at offset `i`. */
  predicate OccursAt(s: string, p: string, i: nat)
  {
    i + |p| <= |s| && s[i..i + |p|] == p
  }

  /** Python's `p in s` for strings: `p` occurs in `s` at some offset. */
  predicate Contains(s: string, p: string)
  {
    exists i: nat :: i <= |s| && OccursAt(s, p, i)
  }

  /** There is one piece more than there are separators. */
  lemma {:induction false} SplitCount(s: string, sep: char)
    ensures |Split(s, sep)| == Count(s, sep) + 1
    decreases |s|
  {
    if |s| > 0 {
      SplitCount(s[1..], sep);
    }
  }

  /** Replacing distributes over concatenation. */
  lemma {:induction false} ReplaceCharConcat(a: string, b: string, target: char, replacement: string)
    ensures ReplaceChar(a + b, target, replacement) == ReplaceChar(a, target, replacement) + ReplaceChar(b, target, replacement)
    decreases |a|
  {
    if |a| > 0 {
      assert (a + b)[1..] == a[1..] + b;
      ReplaceCharConcat(a[1..], b, target, replacement);
    } else {
      assert a + b == b;
    }
  }

  /** A piece without the separator splits to itself. */
  lemma {:induction false} SplitNoSeparator(s: string, sep: char)
    requires sep !in s
    ensures Split(s, sep) == [s]
    decreases |s|
  {
    if |s| > 0 {
      SplitNoSeparator(s[1..], sep);
      assert [s[0]] + s[1..] == s;
    }
  }

  /** Splitting at the first separator peels off the first piece. */
  lemma {:induction false} SplitFirst(a: string, sep: char, b: string)
    requires sep !in a
    ensures Split(a + [sep] + b, sep) == [a] + Split(b, sep)
    decreases |a|
  {
    var s := a + [sep] + b;
    if |a| == 0 {
      assert s[1..] == b;
    } else {
      assert s[1..] == a[1..] + [sep] + b;
      SplitFirst(a[1..], sep, b);
      assert [a[0]] + a[1..] == a;
    }
  }

  /** A separator between two texts splits them apart. */
  lemma {:induction false} SplitAround(a: string, sep: char, b: string)
    ensures Split(a + [sep] + b, sep) == Split(a, sep) + Split(b, sep)
    decreases |a|, 1
  {
    if |a| == 0 {
      assert a + [sep] + b == [sep] + b;
      SplitCons(sep, b, sep);
    } else {
      assert a == [a[0]] + a[1..];
      SplitAroundStep(a[0], a[1..], sep, b);
    }
  }

  /** `SplitAround` for a text with a known first character. */
  lemma {:induction false} SplitAroundStep(c: char, t: string, sep: char, b: string)
    ensures Split([c] + t + [sep] + b, sep) == Split([c] + t, sep) + Split(b, sep)
    decreases |t| + 1, 0
  {
    var u := t + [sep] + b;
    SplitAround(t, sep, b);
    assert [c] + t + [sep] + b == [c] + u;
    SplitCons(c, u, sep);
    SplitCons(c, t, sep);
    ConsPieces(c, Split(t, sep), Split(b, sep), sep);
  }

  /** Putting one more character in front of a list of pieces commutes with
      appending further pieces. */
  lemma ConsPieces(c: char, x: seq<string>, y: seq<string>, sep: char)
    requires |x| >= 1
    ensures (if c == sep then [""] + (x + y) else [[c] + (x + y)[0]] + (x + y)[1..])
         == (if c == sep then [""] + x else [[c] + x[0]] + x[1..]) + y
  {
    if c != sep {
      assert (x + y)[0] == x[0] && (x + y)[1..] == x[1..] + y;
    }
  }

  /** One step of splitting: the first character either closes the first
      piece or joins it. */
  lemma SplitCons(c: char, t: string, sep: char)
    ensures Split([c] + t, sep)
         == if c == sep then [""] + Split(t, sep) else [[c] + Split(t, sep)[0]] + Split(t, sep)[1..]
  {
    assert ([c] + t)[1..] == t;
  }

  /** A separator followed by a separator-free word adds that word. */
  lemma SplitSnoc(a: string, sep: char, w: string)
    requires sep !in w
    ensures Split(a + [sep] + w, sep) == Split(a, sep) + [w]
  {
    SplitAround(a, sep, w);
    SplitNoSeparator(w, sep);
  }

  /** Python's `s.startswith(p)`. */
  predicate StartsWith(s: string, p: string)
  {
    |p| <= |s| && s[..|p|] == p
  }

  /** Joining with the separator undoes splitting. */
  lemma {:induction false} JoinSplit(s: string, sep: char)
    ensures Join(Split(s, sep), [sep]) == s
    decreases |s|
  {
    if |s| > 0 {
      var rest := Split(s[1..], sep);
      JoinSplit(s[1..], sep);
      if s[0] == sep {
        assert Join([""] + rest, [sep]) == "" + [sep] + Join(rest, [sep]);
      } else {
        var parts := [[s[0]] + rest[0]] + rest[1..];
        if |rest| == 1 {
          assert Join(parts, [sep]) == [s[0]] + rest[0];
        } else {
          assert parts[1..] == rest[1..];
          assert Join(rest, [sep]) == rest[0] + [sep] + Join(rest[1..], [sep]);
        }
      }
      assert [s[0]] + s[1..] == s;
    }
  }

  /** Splitting undoes joining, provided no piece holds the separator. */
  lemma {:induction false} SplitJoin(parts: seq<string>, sep: char)
    requires |parts| >= 1
    requires forall i :: 0 <= i < |parts| ==> sep !in parts[i]
    ensures Split(Join(parts, [sep]), sep) == parts
    decreases |parts|
  {
    if |parts| == 1 {
      SplitNoSeparator(parts[0], sep);
    } else {
      SplitJoin(parts[1..], sep);
      SplitFirst(parts[0], sep, Join(parts[1..], [sep]));
      assert [parts[0]] + parts[1..] == parts;
    }
  }

  /** Each joined piece occurs in the joined text. */
  lemma {:induction false} JoinContainsPart(parts: seq<string>, sep: string, k: nat)
    requires k < |parts|
    ensures Contains(Join(parts, sep), parts[k])
    decreases |parts|
  {
    var s := Join(parts, sep);
    if |parts| == 1 {
      assert OccursAt(s, parts[0], 0);
    } else if k == 0 {
      assert s[0..|parts[0]|] == parts[0];
      assert OccursAt(s, parts[0], 0);
    } else {
      JoinContainsPart(parts[1..], sep, k - 1);
      var tail := Join(parts[1..], sep);
      var i: nat :| i <= |tail| && OccursAt(tail, parts[k], i);
      var pre := parts[0] + sep;
      assert s == pre + tail;
      assert s[|pre| + i..|pre| + i + |parts[k]|] == tail[i..i + |parts[k]|];
      assert OccursAt(s, parts[k], |pre| + i);
    }
  }

  /** Containment is transitive: a piece of a piece occurs in the whole. */
  lemma ContainsTrans(s: string, t: string, p: string)
    requires Contains(s, t) && Contains(t, p)
    ensures Contains(s, p)
  {
    var i: nat :| i <= |s| && OccursAt(s, t, i);
    var j: nat :| j <= |t| && OccursAt(t, p, j);
    var w := s[i..i + |t|];
    assert w == t;
    var u, v := w[j..j + |p|], s[i + j..i + j + |p|];
    forall k | 0 <= k < |p|
      ensures u[k] == v[k]
    {
      assert w[j + k] == s[i + j + k];
    }
    assert u == v;
    assert OccursAt(s, p, i + j);
  }

  /** What occurs in a text still occurs once more is appended. */
  lemma ContainsExtend(a: string, b: string, p: string)
    requires Contains(a, p)
    ensures Contains(a + b, p)
  {
    var i: nat :| i <= |a| && OccursAt(a, p, i);
    assert (a + b)[i..i + |p|] == a[i..i + |p|];
    assert OccursAt(a + b, p, i);
  }

  /** A text occurs wherever it is pasted. */
  lemma ContainsMiddle(a: string, p: string, b: string)
    ensures Contains(a + p + b, p)
  {
    assert (a + p + b)[|a|..|a| + |p|] == p;
    assert OccursAt(a + p + b, p, |a|);
  }

  /** A prefix occurs in the text it starts. */
  lemma ContainsPrefix(s: string, p: string)
    requires StartsWith(s, p)
    ensures Contains(s, p)
  {
    assert OccursAt(s, p, 0);
  }

  /** No two neighbouring characters of `s` are both `c`. */
  predicate NoDouble(s: string, c: char)
  {
    forall i :: 0 <= i < |s| - 1 ==> s[i] != c || s[i + 1] != c
  }

  /** A single `c` between two texts free of `c` is not doubled. */
  lemma NoDoubleAround(a: string, c: char, b: string)
    requires c !in a && c !in b
    ensures NoDouble(a + [c] + b, c)
  {
    var s := a + [c] + b;
    forall i | 0 <= i < |s| - 1
      ensures s[i] != c || s[i + 1] != c
    {
      if i < |a| {
        assert s[i] == a[i];
      } else if i == |a| {
        assert s[i + 1] == b[0];
      } else {
        assert s[i] == b[i - |a| - 1];
      }
    }
  }

  /** Two texts without a doubled `c` keep that property when glued, unless
      the seam itself doubles `c`. */
  lemma NoDoubleConcat(a: string, b: string, c: char)
    requires NoDouble(a, c) && NoDouble(b, c)
    requires |a| == 0 || |b| == 0 || a[|a| - 1] != c || b[0] != c
    ensures NoDouble(a + b, c)
  {
    var s := a + b;
    forall i | 0 <= i < |s| - 1
      ensures s[i] != c || s[i + 1] != c
    {
      if i < |a| - 1 {
        assert s[i] == a[i] && s[i + 1] == a[i + 1];
      } else if i == |a| - 1 {
        assert s[i] == a[|a| - 1] && s[i + 1] == b[0];
      } else {
        assert s[i] == b[i - |a|] && s[i + 1] == b[i - |a| + 1];
      }
    }
  }

  /** Joining with a separator free of `c` never doubles `c`. */
  lemma {:induction false} NoDoubleJoin(parts: seq<string>, sep: string, c: char)
    requires forall k :: 0 <= k < |parts| ==> NoDouble(parts[k], c)
    requires |sep| > 0 && c !in sep
    ensures NoDouble(Join(parts, sep), c)
    decreases |parts|
  {
    if |parts| > 1 {
      NoDoubleJoin(parts[1..], sep, c);
      assert sep[0] != c && sep[|sep| - 1] != c;
      NoDoubleConcat(parts[0], sep, c);
      NoDoubleConcat(parts[0] + sep, Join(parts[1..], sep), c);
    }
  }

  /** A text that never doubles `c` holds no pattern starting `cc`. */
  lemma NoDoubleExcludes(s: string, p: string, c: char)
    requires NoDouble(s, c) && |p| >= 2 && p[0] == c && p[1] == c
    ensures !Contains(s, p)
  {
    forall i: nat | i <= |s|
      ensures !OccursAt(s, p, i)
    {
      if i + |p| <= |s| {
        var w := s[i..i + |p|];
        assert w[0] == s[i] && w[1] == s[i + 1];
      }
    }
  }
}
