/** String helpers shared by the filter engine, the highlighter and the form page:
    ASCII character classes and case mapping, substring search, character
    replacement, joining and splitting. */
module Text {

  /** `\w` of a JavaScript regular expression without the `u` flag. */
  predicate IsWordChar(c: char) {
    ('a' <= c <= 'z') || ('A' <= c <= 'Z') || ('0' <= c <= '9') || c == '_'
  }

  /** `\s` of a JavaScript regular expression: the white-space and line-terminator
      code points of ECMAScript. */
  predicate IsSpace(c: char) {
    ('\t' <= c <= '\r') || c == ' ' || c == '\U{00A0}' || c == '\U{1680}'
    || ('\U{2000}' <= c <= '\U{200A}') || c == '\U{2028}' || c == '\U{2029}'
    || c == '\U{202F}' || c == '\U{205F}' || c == '\U{3000}' || c == '\U{FEFF}'
  }

  function LowerChar(c: char): (d: char)
    ensures 'A' <= c <= 'Z' ==> d as int == c as int + 32
    ensures !('A' <= c <= 'Z') ==> d == c
    ensures !('A' <= d <= 'Z')
  {
    if 'A' <= c <= 'Z' then (c as int + 32) as char else c
  }

  /** `toLowerCase`, restricted to the ASCII letters. */
  function Lower(s: string): (r: string)
    ensures |r| == |s|
    ensures forall i :: 0 <= i < |s| ==> r[i] == LowerChar(s[i])
  {
    if s == [] then [] else [LowerChar(s[0])] + Lower(s[1..])
  }

  /** Lower-casing is idempotent. */
  lemma LowerIdempotent(s: string)
    ensures Lower(Lower(s)) == Lower(s)
  {
  }

  predicate OccursAt(hay: string, needle: string, i: int) {
    0 <= i && i + |needle| <= |hay| && hay[i..i + |needle|] == needle
  }

  /** `hay.includes(needle)`. */
  predicate Includes(hay: string, needle: string) {
    exists i | 0 <= i <= |hay| - |needle| :: OccursAt(hay, needle, i)
  }

  /** The empty string is included in every string, and a string includes itself
      inside any context. */
  lemma IncludesInContext(a: string, needle: string, b: string)
    ensures Includes(a + needle + b, needle)
  {
    assert OccursAt(a + needle + b, needle, |a|) by {
      assert (a + needle + b)[|a|..|a| + |needle|] == needle;
    }
  }

  /** A string cannot include a needle one of whose characters it lacks. */
  lemma MissingCharNotIncluded(hay: string, needle: string, k: nat)
    requires k < |needle| && needle[k] !in hay
    ensures !Includes(hay, needle)
  {
    forall i | 0 <= i <= |hay| - |needle| ensures !OccursAt(hay, needle, i) {
      assert hay[i + k] in hay;
    }
  }

  /** Number of occurrences of `c` in `s`. */
  function CountChar(s: string, c: char): (n: nat)
    ensures n <= |s|
    ensures n == 0 <==> c !in s
  {
    if s == [] then 0 else (if s[0] == c then 1 else 0) + CountChar(s[1..], c)
  }

  lemma {:induction false} CountCharAppend(a: string, b: string, c: char)
    ensures CountChar(a + b, c) == CountChar(a, c) + CountChar(b, c)
  {
    if a == [] {
      assert a + b == b;
    } else {
      assert (a + b)[1..] == a[1..] + b;
      CountCharAppend(a[1..], b, c);
    }
  }

  /** `s.replace(/c/g, rep)` for a single-character pattern `c`. */
  function ReplaceChar(s: string, c: char, rep: string): (r: string)
  {
    if s == [] then []
    else (if s[0] == c then rep else [s[0]]) + ReplaceChar(s[1..], c, rep)
  }

  /** Replacing distributes over concatenation. */
  lemma {:induction false} ReplaceCharAppend(a: string, b: string, c: char, rep: string)
    ensures ReplaceChar(a + b, c, rep) == ReplaceChar(a, c, rep) + ReplaceChar(b, c, rep)
  {
    if a == [] {
      assert a + b == b;
    } else {
      assert (a + b)[1..] == a[1..] + b;
      ReplaceCharAppend(a[1..], b, c, rep);
    }
  }

  /** After the replacement no occurrence of `c` is left. */
  lemma {:induction false} ReplaceCharRemoves(s: string, c: char, rep: string)
    requires c !in rep
    ensures c !in ReplaceChar(s, c, rep)
  {
    if s != [] {
      var head := if s[0] == c then rep else [s[0]];
      ReplaceCharRemoves(s[1..], c, rep);
      assert ReplaceChar(s, c, rep) == head + ReplaceChar(s[1..], c, rep);
    }
  }

  /** The length grows by the extra length of the replacement, once per
      occurrence of `c`. */
  lemma {:induction false} ReplaceCharLength(s: string, c: char, rep: string)
    ensures |ReplaceChar(s, c, rep)| == |s| + (|rep| - 1) * CountChar(s, c)
  {
    if s != [] {
      ReplaceCharLength(s[1..], c, rep);
      var k := CountChar(s[1..], c);
      var extra := |rep| - 1;
      var tail := ReplaceChar(s[1..], c, rep);
      assert |tail| == |s| - 1 + extra * k;
      if s[0] == c {
        assert ReplaceChar(s, c, rep) == rep + tail;
        assert CountChar(s, c) == k + 1;
        MulSucc(extra, k);
      } else {
        assert ReplaceChar(s, c, rep) == [s[0]] + tail;
        assert CountChar(s, c) == k;
      }
    }
  }

  lemma MulSucc(a: int, k: int)
    ensures a * (k + 1) == a * k + a
  {
  }

  /** Characters that neither are the pattern nor occur in the replacement keep
      their number of occurrences. */
  lemma {:induction false} ReplaceCharCountOther(s: string, c: char, rep: string, d: char)
    requires d != c && d !in rep
    ensures CountChar(ReplaceChar(s, c, rep), d) == CountChar(s, d)
  {
    if s != [] {
      var head := if s[0] == c then rep else [s[0]];
      CountCharAppend(head, ReplaceChar(s[1..], c, rep), d);
      assert CountChar(head, d) == (if s[0] == d then 1 else 0) by {
        if s[0] != c {
          assert head[1..] == [];
        }
      }
      ReplaceCharCountOther(s[1..], c, rep, d);
    }
  }

  /** A character JavaScript stores in one UTF-16 code unit. */
  predicate InBasicPlane(c: char) {
    c as int < 0x1_0000
  }

  /** `s.length` in JavaScript: characters outside the basic plane take two
      UTF-16 code units. */
  function Utf16Length(s: string): (n: nat)
    ensures |s| <= n <= 2 * |s|
  {
    if s == [] then 0 else (if InBasicPlane(s[0]) then 1 else 2) + Utf16Length(s[1..])
  }

  lemma {:induction false} Utf16LengthBasicPlane(s: string)
    requires forall k :: 0 <= k < |s| ==> InBasicPlane(s[k])
    ensures Utf16Length(s) == |s|
  {
    if s != [] {
      assert InBasicPlane(s[0]);
      Utf16LengthBasicPlane(s[1..]);
    }
  }

  /** The UTF-16 length of a concatenation is the sum of the lengths; with the
      two lemmas around it this fixes the length of every string. */
  lemma {:induction false} Utf16LengthAppend(a: string, b: string)
    ensures Utf16Length(a + b) == Utf16Length(a) + Utf16Length(b)
  {
    if a == [] {
      assert a + b == b;
    } else {
      assert (a + b)[1..] == a[1..] + b;
      Utf16LengthAppend(a[1..], b);
    }
  }

  /** One character outside the basic plane counts twice. */
  lemma Utf16LengthOutsideBasicPlane(c: char)
    requires !InBasicPlane(c)
    ensures Utf16Length([c]) == 2
  {
    assert [c][1..] == [];
  }

  /** `parts.join(sep)`. */
  function Join(parts: seq<string>, sep: string): string
  {
    if parts == [] then ""
    else if |parts| == 1 then parts[0]
    else parts[0] + sep + Join(parts[1..], sep)
  }

  /** Joining is a homomorphism from non-empty lists: joining two lists and
      gluing the results with the separator is joining their concatenation. */
  lemma {:induction false} JoinAppend(xs: seq<string>, ys: seq<string>, sep: string)
    requires xs != [] && ys != []
    ensures Join(xs + ys, sep) == Join(xs, sep) + sep + Join(ys, sep)
  {
    if |xs| == 1 {
      assert (xs + ys)[1..] == ys;
    } else {
      assert (xs + ys)[1..] == xs[1..] + ys;
      JoinAppend(xs[1..], ys, sep);
    }
  }

  /** The length of a joined list: every part plus one separator between each
      two neighbours. */
  function TotalLength(parts: seq<string>): nat {
    if parts == [] then 0 else |parts[0]| + TotalLength(parts[1..])
  }

  lemma {:induction false} JoinLength(parts: seq<string>, sep: string)
    requires parts != []
    ensures |Join(parts, sep)| == TotalLength(parts) + |sep| * (|parts| - 1)
  {
    if |parts| > 1 {
      JoinLength(parts[1..], sep);
    }
  }

  /** `s.split(c)` for a one-character separator: the pieces between the
      occurrences of `c`, always at least one. */
  function SplitOn(s: string, c: char): (r: seq<string>)
    ensures |r| >= 1
  {
    if s == [] then [""]
    else
      var rest := SplitOn(s[1..], c);
      if s[0] == c then [""] + rest else [[s[0]] + rest[0]] + rest[1..]
  }

  /** There is one more piece than separators, no piece holds the separator,
      and joining the pieces back with the separator gives the input. */
  lemma SplitOnFacts(s: string, c: char)
    ensures |SplitOn(s, c)| == CountChar(s, c) + 1
    ensures forall k :: 0 <= k < |SplitOn(s, c)| ==> c !in SplitOn(s, c)[k]
    ensures Join(SplitOn(s, c), [c]) == s
  {
    SplitOnCount(s, c);
    SplitOnPiecesFree(s, c);
    SplitOnJoin(s, c);
  }

  lemma {:induction false} SplitOnCount(s: string, c: char)
    ensures |SplitOn(s, c)| == CountChar(s, c) + 1
  {
    if s != [] {
      SplitOnCount(s[1..], c);
    }
  }

  lemma {:induction false} SplitOnPiecesFree(s: string, c: char)
    ensures forall k :: 0 <= k < |SplitOn(s, c)| ==> c !in SplitOn(s, c)[k]
  {
    if s != [] {
      var rest := SplitOn(s[1..], c);
      SplitOnPiecesFree(s[1..], c);
      var r := SplitOn(s, c);
      if s[0] == c {
        assert r == [""] + rest;
        assert forall k :: 1 <= k < |r| ==> r[k] == rest[k - 1];
      } else {
        assert r == [[s[0]] + rest[0]] + rest[1..];
        assert c !in rest[0];
        assert forall k :: 1 <= k < |r| ==> r[k] == rest[k];
      }
    }
  }

  lemma {:induction false} SplitOnJoin(s: string, c: char)
    ensures Join(SplitOn(s, c), [c]) == s
  {
    if s != [] {
      var rest := SplitOn(s[1..], c);
      SplitOnJoin(s[1..], c);
      if s[0] == c {
        assert Join([""] + rest, [c]) == [c] + Join(rest, [c]) by {
          assert ([""] + rest)[1..] == rest;
        }
        assert [c] + s[1..] == s;
      } else {
        var r := SplitOn(s, c);
        assert r == [[s[0]] + rest[0]] + rest[1..];
        if |rest| == 1 {
          assert Join(r, [c]) == [s[0]] + rest[0];
        } else {
          assert r[1..] == rest[1..];
          assert Join(rest, [c]) == rest[0] + [c] + Join(rest[1..], [c]);
        }
        assert [s[0]] + s[1..] == s;
      }
    }
  }
}
