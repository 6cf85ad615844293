/**
 * Character-level helpers shared by the workbook parser and the analytics
 * queries: JavaScript's `trim`, ASCII upper-casing, removal of thousands
 * separators, and the substring and prefix tests behind SQLite's LIKE.
 */
module Text {

  /** White space and line terminators as JavaScript's `trim`, `parseFloat` and `parseInt` skip them. */
  predicate IsJsSpace(c: char)
  {
    var n := c as int;
    n == 0x09 || n == 0x0A || n == 0x0B || n == 0x0C || n == 0x0D || n == 0x20 ||
    n == 0xA0 || n == 0x1680 || (0x2000 <= n <= 0x200A) || n == 0x2028 || n == 0x2029 ||
    n == 0x202F || n == 0x205F || n == 0x3000 || n == 0xFEFF
  }

  /** `s` with its leading white space removed. */
  function TrimStart(s: string): (r: string)
    ensures |r| <= |s|
    ensures r == [] || !IsJsSpace(r[0])
    ensures forall i :: 0 <= i < |s| - |r| ==> IsJsSpace(s[i])
  {
    if s != [] && IsJsSpace(s[0]) then TrimStart(s[1..]) else s
  }

  /** What `TrimStart` keeps is a suffix of its input. */
  lemma {:induction false} TrimStartSuffix(s: string)
    ensures TrimStart(s) == s[|s| - |TrimStart(s)|..]
  {
    if s != [] && IsJsSpace(s[0]) {
      TrimStartSuffix(s[1..]);
    }
  }

  /** `s` with its trailing white space removed. */
  function TrimEnd(s: string): (r: string)
    ensures |r| <= |s|
    ensures r == [] || !IsJsSpace(r[|r| - 1])
    ensures forall i :: |r| <= i < |s| ==> IsJsSpace(s[i])
  {
    if s != [] && IsJsSpace(s[|s| - 1]) then TrimEnd(s[..|s| - 1]) else s
  }

  /** What `TrimEnd` keeps is a prefix of its input. */
  lemma {:induction false} TrimEndPrefix(s: string)
    ensures TrimEnd(s) == s[..|TrimEnd(s)|]
  {
    if s != [] && IsJsSpace(s[|s| - 1]) {
      TrimEndPrefix(s[..|s| - 1]);
    }
  }

  /** JavaScript's `String.prototype.trim`. */
  function Trim(s: string): string
  {
    TrimEnd(TrimStart(s))
  }

  /** Trimmed text neither starts nor ends with white space. */
  lemma TrimmedEdges(s: string)
    ensures Trim(s) == [] || (!IsJsSpace(Trim(s)[0]) && !IsJsSpace(Trim(s)[|Trim(s)| - 1]))
  {
    var t := TrimStart(s);
    TrimEndPrefix(t);
  }

  /** A cell is blank exactly when trimming leaves nothing. */
  predicate IsBlank(s: string)
  {
    Trim(s) == ""
  }

  /** Trimmed text is blank exactly when it is empty. */
  lemma TrimmedBlankIffEmpty(s: string)
    ensures IsBlank(Trim(s)) <==> Trim(s) == ""
  {
    var t := Trim(s);
    TrimmedEdges(s);
    if t != "" {
      assert TrimStart(t) == t;
      assert TrimEnd(t) == t;
    }
  }

  /** Trimming removes exactly the white space around the text: nothing is left iff every character is white space. */
  lemma BlankIffAllSpace(s: string)
    ensures IsBlank(s) <==> forall i :: 0 <= i < |s| ==> IsJsSpace(s[i])
  {
    var t := TrimStart(s);
    TrimStartSuffix(s);
    TrimEndPrefix(t);
    if IsBlank(s) {
      assert t == [];
    } else {
      var r := TrimEnd(t);
      assert r != [] && !IsJsSpace(r[0]);
      assert r[0] == s[|s| - |t|];
    }
  }

  /** A character that is not white space survives trimming wherever it occurs. */
  lemma TrimKeepsNonSpace(s: string, c: char)
    requires !IsJsSpace(c)
    ensures c in Trim(s) <==> c in s
  {
    TrimStartKeepsNonSpace(s, c);
    TrimEndKeepsNonSpace(TrimStart(s), c);
  }

  lemma TrimStartKeepsNonSpace(s: string, c: char)
    requires !IsJsSpace(c)
    ensures c in TrimStart(s) <==> c in s
  {
    var t := TrimStart(s);
    TrimStartSuffix(s);
    var k := |s| - |t|;
    if c in s {
      var i :| 0 <= i < |s| && s[i] == c;
      assert t[i - k] == c;
    }
  }

  lemma TrimEndKeepsNonSpace(s: string, c: char)
    requires !IsJsSpace(c)
    ensures c in TrimEnd(s) <==> c in s
  {
    var r := TrimEnd(s);
    TrimEndPrefix(s);
    if c in s {
      var i :| 0 <= i < |s| && s[i] == c;
      assert r[i] == c;
    }
  }

  /** ASCII upper-casing of one character. */
  function UpperAscii(c: char): char
  {
    if 'a' <= c <= 'z' then (c as int - 32) as char else c
  }

  /** `toUpperCase` restricted to the ASCII letters. */
  function ToUpper(s: string): (r: string)
    ensures |r| == |s|
    ensures forall i :: 0 <= i < |s| ==> !('a' <= r[i] <= 'z')
    ensures forall i :: 0 <= i < |s| && 'a' <= s[i] <= 'z' ==> r[i] as int == s[i] as int - 32
    ensures forall i :: 0 <= i < |s| && !('a' <= s[i] <= 'z') ==> r[i] == s[i]
  {
    seq(|s|, i requires 0 <= i < |s| => UpperAscii(s[i]))
  }

  /** `s.replace(/,/g, '')`: every comma removed, everything else kept in order. */
  function RemoveCommas(s: string): string
  {
    if s == [] then []
    else if s[0] == ',' then RemoveCommas(s[1..])
    else [s[0]] + RemoveCommas(s[1..])
  }

  /** Removing commas leaves no comma, keeps every other character as often as it occurs, and changes nothing without a comma. */
  lemma {:induction false} RemoveCommasKeeps(s: string)
    ensures ',' !in RemoveCommas(s)
    ensures multiset(RemoveCommas(s)) == multiset(s)[',' := 0]
    ensures ',' !in s ==> RemoveCommas(s) == s
  {
    if s != [] {
      assert s == [s[0]] + s[1..];
      RemoveCommasKeeps(s[1..]);
    }
  }

  /** Removing commas works piece by piece, so the characters kept stay in their order. */
  lemma {:induction false} RemoveCommasAppend(a: string, b: string)
    ensures RemoveCommas(a + b) == RemoveCommas(a) + RemoveCommas(b)
  {
    if a != [] {
      var ab := a + b;
      assert ab != [] && ab[0] == a[0] && ab[1..] == a[1..] + b;
      RemoveCommasAppend(a[1..], b);
      if a[0] == ',' {
        assert RemoveCommas(ab) == RemoveCommas(a[1..] + b);
      } else {
        assert RemoveCommas(ab) == [a[0]] + RemoveCommas(a[1..] + b);
        var x, y := RemoveCommas(a[1..]), RemoveCommas(b);
        assert RemoveCommas(a) == [a[0]] + x;
        assert [a[0]] + x + y == [a[0]] + (x + y);
      }
    } else {
      assert a + b == b;
    }
  }

  predicate IsPrefix(p: string, s: string)
  {
    |p| <= |s| && s[..|p|] == p
  }

  /** `sub` occurs somewhere in `s`. */
  predicate ContainsSub(s: string, sub: string)
    decreases |s|
  {
    IsPrefix(sub, s) || (s != [] && ContainsSub(s[1..], sub))
  }

  /** `sub` occurs in `s` starting at index `i`. */
  predicate OccursAt(s: string, sub: string, i: int)
  {
    0 <= i <= |s| - |sub| && s[i..i + |sub|] == sub
  }

  /** The recursive search agrees with "some window of `s` equals `sub`". */
  lemma {:induction false} ContainsSubIffOccurs(s: string, sub: string)
    ensures ContainsSub(s, sub) <==> exists i :: OccursAt(s, sub, i)
    decreases |s|
  {
    if IsPrefix(sub, s) {
      assert OccursAt(s, sub, 0);
    } else if s == [] {
    } else {
      ContainsSubIffOccurs(s[1..], sub);
      if exists i :: OccursAt(s, sub, i) {
        var i :| OccursAt(s, sub, i);
        assert i != 0;
        assert OccursAt(s[1..], sub, i - 1);
      }
      if ContainsSub(s[1..], sub) {
        var i :| OccursAt(s[1..], sub, i);
        assert OccursAt(s, sub, i + 1);
      }
    }
  }

  /** SQLite `s LIKE '%pat%'` for a pattern without wildcards: ASCII case-insensitive containment. */
  predicate LikeContains(s: string, pat: string)
  {
    ContainsSub(ToUpper(s), ToUpper(pat))
  }

  /** SQLite `s LIKE 'pat%'` for a pattern without wildcards. */
  predicate LikePrefix(s: string, pat: string)
  {
    IsPrefix(ToUpper(pat), ToUpper(s))
  }
}
