/** The handful of Python string operations the tool relies on: substring
    search (`t in s`), ASCII `lower()`, `str.split` on one separator,
    `sep.join`, `str.replace("pc", "PC")` and decimal formatting of
    integers. */
module Text {

  predicate IsPrefix(p: string, s: string) {
    |p| <= |s| && s[..|p|] == p
  }

  /** Python's `t in s` for two strings. */
  predicate Contains(s: string, t: string)
    decreases |s|
  {
    IsPrefix(t, s) || (|s| > 0 && Contains(s[1..], t))
  }

  /** `t` occurs in `s` starting at offset `i`. */
  predicate OccursAt(s: string, t: string, i: int) {
    0 <= i && i + |t| <= |s| && s[i..i + |t|] == t
  }

  /** A slice of the tail is the slice of `s` one further on. */
  lemma TailSlice(s: string, a: int, b: int)
    requires 1 <= a <= b <= |s|
    ensures s[1..][a - 1..b - 1] == s[a..b]
  {
    forall j | 0 <= j < b - a ensures s[1..][a - 1..b - 1][j] == s[a..b][j] {
    }
  }

  /** `t` occurs in `s` exactly when it occurs at some offset. */
  lemma {:induction false} ContainsIffOffset(s: string, t: string)
    ensures Contains(s, t) <==> exists i :: OccursAt(s, t, i)
    decreases |s|
  {
    if IsPrefix(t, s) {
      assert OccursAt(s, t, 0);
    } else if |s| > 0 {
      ContainsIffOffset(s[1..], t);
      if Contains(s[1..], t) {
        var i :| OccursAt(s[1..], t, i);
        TailSlice(s, i + 1, i + 1 + |t|);
        assert OccursAt(s, t, i + 1);
      } else {
        forall i | OccursAt(s, t, i)
          ensures false
        {
          if i > 0 {
            TailSlice(s, i, i + |t|);
            assert OccursAt(s[1..], t, i - 1);
          }
        }
      }
    } else {
      forall i | OccursAt(s, t, i)
        ensures false
      {
      }
    }
  }

  /** A string contains itself at its end. */
  lemma {:induction false} ContainsSuffix(a: string, t: string)
    ensures Contains(a + t, t)
    decreases |a|
  {
    if |a| == 0 {
      assert a + t == t;
      assert IsPrefix(t, a + t);
    } else {
      assert (a + t)[1..] == a[1..] + t;
      ContainsSuffix(a[1..], t);
    }
  }

  /** Occurrences survive appending on the right. */
  lemma {:induction false} ContainsAppend(a: string, b: string, t: string)
    requires Contains(a, t)
    ensures Contains(a + b, t)
    decreases |a|
  {
    if IsPrefix(t, a) {
      assert (a + b)[..|t|] == a[..|t|];
    } else {
      assert (a + b)[1..] == a[1..] + b;
      ContainsAppend(a[1..], b, t);
    }
  }

  /** Every string contains itself. */
  lemma ContainsSelf(t: string)
    ensures Contains(t, t)
  {
    assert IsPrefix(t, t);
  }

  /** An occurrence at `i` fixes the characters of `s` from `i` on. */
  lemma OccursAtChar(s: string, t: string, i: int, k: int)
    requires OccursAt(s, t, i) && 0 <= k < |t|
    ensures s[i + k] == t[k]
  {
    assert s[i..i + |t|][k] == s[i + k];
  }

  /** A string cannot contain `t` when it lacks `t`'s first character. */
  lemma FirstCharAbsent(s: string, t: string)
    requires |t| > 0 && t[0] !in s
    ensures !Contains(s, t)
  {
    ContainsIffOffset(s, t);
    forall i | 0 <= i && i + |t| <= |s|
      ensures !OccursAt(s, t, i)
    {
      assert s[i..i + |t|][0] == s[i];
    }
  }

  /** An occurrence of `t` in `a + [c] + b`, where `t` has no `c`, lies
      inside `a` or inside `b`. */
  lemma NoStraddle(a: string, c: char, b: string, t: string)
    requires |t| > 0 && c !in t
    requires !Contains(a, t) && !Contains(b, t)
    ensures !Contains(a + [c] + b, t)
  {
    ContainsIffOffset(a + [c] + b, t);
    ContainsIffOffset(a, t);
    ContainsIffOffset(b, t);
    forall i | 0 <= i && i + |t| <= |a| + 1 + |b|
      ensures !OccursAt(a + [c] + b, t, i)
    {
      NoStraddleAt(a, c, b, t, i);
    }
  }

  /** One offset of `NoStraddle`. */
  lemma NoStraddleAt(a: string, c: char, b: string, t: string, i: int)
    requires c !in t && 0 <= i && i + |t| <= |a| + 1 + |b|
    requires i + |t| <= |a| ==> !OccursAt(a, t, i)
    requires i > |a| ==> !OccursAt(b, t, i - |a| - 1)
    ensures !OccursAt(a + [c] + b, t, i)
  {
    var s := a + [c] + b;
    if i + |t| <= |a| {
      assert s[i..i + |t|] == a[i..i + |t|];
    } else if i > |a| {
      assert s[i..i + |t|] == b[i - |a| - 1..i - |a| - 1 + |t|];
    } else {
      var k := |a| - i;
      assert s[i..i + |t|][k] == c;
      assert t[k] != c;
    }
  }


  // ---------------------------------------------------------------------
  // lower()

  function LowerChar(c: char): char {
    if 'A' <= c <= 'Z' then (c as int + 32) as char else c
  }

  /** ASCII case folding, as Python's `str.lower()` on ASCII text. */
  function Lower(s: string): (r: string)
    ensures |r| == |s|
    ensures forall i :: 0 <= i < |s| ==> r[i] == LowerChar(s[i])
  {
    seq(|s|, i requires 0 <= i < |s| => LowerChar(s[i]))
  }

  /** `(a + b).lower() == a.lower() + b.lower()`. */
  lemma LowerAppend(a: string, b: string)
    ensures Lower(a + b) == Lower(a) + Lower(b)
  {
  }

  // ---------------------------------------------------------------------
  // replace("pc", "PC")

  /** `s.replace("pc", "PC")`: every non-overlapping occurrence of `pc`,
      scanning left to right, is upper-cased. */
  function ReplacePc(s: string): (r: string)
    decreases |s|
  {
    if |s| == 0 then ""
    else if |s| >= 2 && s[0] == 'p' && s[1] == 'c' then "PC" + ReplacePc(s[2..])
    else [s[0]] + ReplacePc(s[1..])
  }

  /** The replacement only changes letter case: it keeps the length and the
      lower-cased text, and leaves no `pc` behind. */
  lemma ReplacePcShape(s: string)
    ensures |ReplacePc(s)| == |s|
    ensures Lower(ReplacePc(s)) == Lower(s)
    ensures !Contains(ReplacePc(s), "pc")
  {
    ReplacePcLower(s);
    ReplacePcNoPc(s);
  }

  lemma {:induction false} ReplacePcLower(s: string)
    ensures |ReplacePc(s)| == |s|
    ensures Lower(ReplacePc(s)) == Lower(s)
    decreases |s|
  {
    if |s| == 0 {
    } else if |s| >= 2 && s[0] == 'p' && s[1] == 'c' {
      ReplacePcLower(s[2..]);
      var rest := ReplacePc(s[2..]);
      LowerAppend("PC", rest);
      assert s == "pc" + s[2..];
      LowerAppend("pc", s[2..]);
    } else {
      ReplacePcLower(s[1..]);
      var rest := ReplacePc(s[1..]);
      LowerAppend([s[0]], rest);
      assert s == [s[0]] + s[1..];
      LowerAppend([s[0]], s[1..]);
    }
  }

  lemma {:induction false} ReplacePcNoPc(s: string)
    ensures !Contains(ReplacePc(s), "pc")
    decreases |s|
  {
    if |s| == 0 {
    } else if |s| >= 2 && s[0] == 'p' && s[1] == 'c' {
      ReplacePcNoPc(s[2..]);
      var rest := ReplacePc(s[2..]);
      NoPcAfterUpper('C', rest);
      assert "PC" + rest == ['P'] + (['C'] + rest);
      NoPcAfterUpper('P', ['C'] + rest);
    } else {
      ReplacePcNoPc(s[1..]);
      NoPcAfterHead(s, ReplacePc(s[1..]));
    }
  }

  /** Unfolding `Contains` on a non-empty text. */
  lemma ContainsCons(c: char, rest: string, t: string)
    ensures Contains([c] + rest, t) <==> IsPrefix(t, [c] + rest) || Contains(rest, t)
  {
    assert ([c] + rest)[1..] == rest;
  }

  /** `pc` occurs in `[c] + rest` only at its head or inside `rest`. */
  lemma ContainsPcCons(c: char, rest: string)
    ensures Contains([c] + rest, "pc") <==>
      (c == 'p' && |rest| >= 1 && rest[0] == 'c') || Contains(rest, "pc")
  {
    ContainsCons(c, rest, "pc");
    var r := [c] + rest;
    if |rest| >= 1 {
      assert r[..2] == [c, rest[0]];
    }
  }

  /** A string starting with a letter other than `p` has `pc` only inside
      its tail. */
  lemma NoPcAfterUpper(c: char, rest: string)
    requires c != 'p'
    requires !Contains(rest, "pc")
    ensures !Contains([c] + rest, "pc")
  {
    ContainsPcCons(c, rest);
  }

  lemma NoPcAfterHead(s: string, rest: string)
    requires |s| >= 1
    requires !(|s| >= 2 && s[0] == 'p' && s[1] == 'c')
    requires rest == ReplacePc(s[1..])
    requires !Contains(rest, "pc")
    ensures !Contains([s[0]] + rest, "pc")
  {
    ContainsPcCons(s[0], rest);
    if s[0] == 'p' && |rest| >= 1 && rest[0] == 'c' {
      ReplacePcHead(s[1..]);
    }
  }

  /** The replacement keeps a leading `c` only where the input had one. */
  lemma ReplacePcHead(s: string)
    requires |ReplacePc(s)| >= 1 && ReplacePc(s)[0] == 'c'
    ensures |s| >= 1 && s[0] == 'c'
  {
  }

  /** Replacing twice is replacing once. */
  lemma {:induction false} ReplacePcIdempotent(s: string)
    ensures ReplacePc(ReplacePc(s)) == ReplacePc(s)
  {
    ReplacePcShape(s);
    ReplacePcFixed(ReplacePc(s));
  }

  /** Text without `pc` is left as it is. */
  lemma {:induction false} ReplacePcFixed(s: string)
    requires !Contains(s, "pc")
    ensures ReplacePc(s) == s
    decreases |s|
  {
    if |s| > 0 {
      assert !IsPrefix("pc", s);
      if |s| >= 2 {
        assert s[..2] == [s[0], s[1]];
      }
      ReplacePcFixed(s[1..]);
      assert s == [s[0]] + s[1..];
    }
  }

  // ---------------------------------------------------------------------
  // split / join

  /** Python's `s.split(sep)` for a one-character separator. */
  function Split(s: string, sep: char): (r: seq<string>)
    ensures |r| >= 1
    decreases |s|
  {
    if |s| == 0 then [""]
    else if s[0] == sep then [""] + Split(s[1..], sep)
    else
      var rest := Split(s[1..], sep);
      [[s[0]] + rest[0]] + rest[1..]
  }

  /** Python's `sep.join(parts)`. */
  function Join(parts: seq<string>, sep: string): string
    decreases |parts|
  {
    if |parts| == 0 then ""
    else if |parts| == 1 then parts[0]
    else parts[0] + sep + Join(parts[1..], sep)
  }

  predicate NoChar(s: string, c: char) {
    forall i :: 0 <= i < |s| ==> s[i] != c
  }

  /** Splitting and joining back with the same separator is the identity,
      and no piece holds the separator. */
  lemma SplitJoin(s: string, sep: char)
    ensures Join(Split(s, sep), [sep]) == s
    ensures forall k :: 0 <= k < |Split(s, sep)| ==> NoChar(Split(s, sep)[k], sep)
  {
    SplitJoinBack(s, sep);
    SplitPiecesNoSep(s, sep);
  }

  lemma {:induction false} SplitJoinBack(s: string, sep: char)
    ensures Join(Split(s, sep), [sep]) == s
    decreases |s|
  {
    if |s| == 0 {
    } else if s[0] == sep {
      SplitJoinBack(s[1..], sep);
      assert Split(s, sep)[1..] == Split(s[1..], sep);
      assert s == [sep] + s[1..];
    } else {
      SplitJoinBack(s[1..], sep);
      SplitJoinHead(s, sep);
    }
  }

  /** The step of `SplitJoinBack` for a first character that is not the
      separator. */
  lemma SplitJoinHead(s: string, sep: char)
    requires |s| > 0 && s[0] != sep
    requires Join(Split(s[1..], sep), [sep]) == s[1..]
    ensures Join(Split(s, sep), [sep]) == s
  {
    var rest := Split(s[1..], sep);
    assert Split(s, sep) == [[s[0]] + rest[0]] + rest[1..];
    JoinConsHead(s[0], rest, [sep]);
    assert s == [s[0]] + s[1..];
  }

  /** Putting a character in front of the first piece puts it in front of
      the joined text. */
  lemma JoinConsHead(c: char, parts: seq<string>, sep: string)
    requires |parts| >= 1
    ensures Join([[c] + parts[0]] + parts[1..], sep) == [c] + Join(parts, sep)
  {
    var r := [[c] + parts[0]] + parts[1..];
    if |parts| > 1 {
      assert r[1..] == parts[1..];
      var tail := Join(parts[1..], sep);
      assert Join(r, sep) == ([c] + parts[0]) + sep + tail;
      assert Join(parts, sep) == parts[0] + sep + tail;
    }
  }



  lemma {:induction false} SplitPiecesNoSep(s: string, sep: char)
    ensures forall k :: 0 <= k < |Split(s, sep)| ==> NoChar(Split(s, sep)[k], sep)
    decreases |s|
  {
    if |s| > 0 {
      SplitPiecesNoSep(s[1..], sep);
      var rest := Split(s[1..], sep);
      var r := Split(s, sep);
      forall k | 0 <= k < |r|
        ensures NoChar(r[k], sep)
      {
        if s[0] == sep {
          if k > 0 {
            assert r[k] == rest[k - 1];
          }
        } else if k > 0 {
          assert r[k] == rest[k];
        }
      }
    }
  }


  /** Splitting `a + sep + b` where neither side contains the separator
      gives exactly the two sides. */
  lemma {:induction false} SplitTwo(a: string, b: string, sep: char)
    requires NoChar(a, sep) && NoChar(b, sep)
    ensures Split(a + [sep] + b, sep) == [a, b]
    decreases |a|
  {
    if |a| == 0 {
      assert a + [sep] + b == [sep] + b;
      assert ([sep] + b)[1..] == b;
      SplitNone(b, sep);
    } else {
      assert (a + [sep] + b)[1..] == a[1..] + [sep] + b;
      SplitTwo(a[1..], b, sep);
      assert a == [a[0]] + a[1..];
    }
  }

  /** A text without the separator splits into itself. */
  lemma {:induction false} SplitNone(s: string, sep: char)
    requires NoChar(s, sep)
    ensures Split(s, sep) == [s]
    decreases |s|
  {
    if |s| > 0 {
      SplitNone(s[1..], sep);
      assert s == [s[0]] + s[1..];
    }
  }

  // ---------------------------------------------------------------------
  // str(int)

  function DigitChar(d: nat): char
    requires d < 10
  {
    "0123456789"[d]
  }

  /** Decimal notation of a natural number, as Python's `str(n)`. */
  function NatToString(n: nat): (r: string)
    ensures |r| >= 1
    ensures forall i :: 0 <= i < |r| ==> '0' <= r[i] <= '9'
    decreases n
  {
    if n < 10 then [DigitChar(n)] else NatToString(n / 10) + [DigitChar(n % 10)]
  }

  /** Decimal notation of an integer, with a leading minus when negative. */
  function IntToString(i: int): (r: string)
    ensures |r| >= 1
    ensures i >= 0 ==> r == NatToString(i)
    ensures i < 0 ==> r[0] == '-'
  {
    if i >= 0 then NatToString(i) else "-" + NatToString(-i)
  }

  // ---------------------------------------------------------------------
  // subscripts

  /** `xs[i]` is defined for a sequence of length `n`: Python also accepts
      negative indices down to `-n`, counting from the end. */
  predicate IndexOk(n: nat, i: int) {
    -(n as int) <= i < n
  }

  /** The position `xs[i]` reads. */
  function Position(n: nat, i: int): (j: nat)
    requires IndexOk(n, i)
    ensures j < n
    ensures i >= 0 ==> j == i
    ensures i < 0 ==> j == n + i
  {
    if i >= 0 then i else n + i
  }

  /** Splitting `a + sep + b`, where `a` has no separator, peels off `a`. */
  lemma {:induction false} SplitCons(a: string, b: string, sep: char)
    requires NoChar(a, sep)
    ensures Split(a + [sep] + b, sep) == [a] + Split(b, sep)
    decreases |a|
  {
    if |a| == 0 {
      assert a + [sep] + b == [sep] + b;
      assert ([sep] + b)[1..] == b;
    } else {
      assert (a + [sep] + b)[1..] == a[1..] + [sep] + b;
      SplitCons(a[1..], b, sep);
      assert a == [a[0]] + a[1..];
    }
  }

  /** Joining non-empty-list pieces free of the separator and splitting
      the result again gives the pieces back. */
  lemma {:induction false} JoinSplit(parts: seq<string>, sep: char)
    requires |parts| >= 1
    requires forall k :: 0 <= k < |parts| ==> NoChar(parts[k], sep)
    ensures Split(Join(parts, [sep]), sep) == parts
    decreases |parts|
  {
    if |parts| == 1 {
      SplitNone(parts[0], sep);
    } else {
      JoinSplit(parts[1..], sep);
      SplitCons(parts[0], Join(parts[1..], [sep]), sep);
      assert parts == [parts[0]] + parts[1..];
    }
  }
}
