/** String helpers the store and the pages rely on: `toLowerCase` (ASCII),
    `includes`, `Array.prototype.join` and number-to-string conversion. */
module Text {

  function LowerChar(c: char): char
  {
    if 'A' <= c <= 'Z' then (c as int + 32) as char else c
  }

  /** `toLowerCase`, restricted to ASCII letters. */
  function Lower(s: string): (r: string)
    ensures |r| == |s|
    ensures forall i :: 0 <= i < |s| ==> r[i] == LowerChar(s[i])
  {
    seq(|s|, i requires 0 <= i < |s| => LowerChar(s[i]))
  }

  lemma LowerIdempotent(s: string)
    ensures Lower(Lower(s)) == Lower(s)
  {
  }

  /** `s.includes(sub)`: `sub` occurs at some position of `s`. */
  function Includes(s: string, sub: string): bool
  {
    if |sub| <= |s| && s[..|sub|] == sub then true
    else if s == [] then false
    else Includes(s[1..], sub)
  }

  /** `sub` occurs in `s` starting at offset `i`. */
  predicate OccursAt(s: string, sub: string, i: int)
  {
    0 <= i && i + |sub| <= |s| && s[i..i + |sub|] == sub
  }

  /** `Includes` holds exactly when `sub` is found at some offset. */
  lemma {:induction false} IncludesAt(s: string, sub: string)
    ensures Includes(s, sub) <==> exists i :: OccursAt(s, sub, i)
  {
    if |sub| <= |s| && s[..|sub|] == sub {
      assert OccursAt(s, sub, 0);
    } else if s == [] {
    } else {
      IncludesAt(s[1..], sub);
      if exists i :: OccursAt(s, sub, i) {
        var i :| OccursAt(s, sub, i);
        assert i != 0;
        assert s[1..][i - 1..i - 1 + |sub|] == s[i..i + |sub|];
        assert OccursAt(s[1..], sub, i - 1);
      }
      if Includes(s[1..], sub) {
        var i :| OccursAt(s[1..], sub, i);
        assert s[1..][i..i + |sub|] == s[i + 1..i + 1 + |sub|];
        assert OccursAt(s, sub, i + 1);
      }
    }
  }

  /** Every string includes the empty string and itself. */
  lemma IncludesTrivial(s: string)
    ensures Includes(s, "") && Includes(s, s)
  {
  }

  /** `parts.join(sep)`. */
  function Join(parts: seq<string>, sep: string): string
  {
    if |parts| == 0 then ""
    else if |parts| == 1 then parts[0]
    else parts[0] + sep + Join(parts[1..], sep)
  }

  /** Joining a non-empty list starts with its first part, then the separator if more follow. */
  lemma JoinCons(head: string, tail: seq<string>, sep: string)
    ensures Join([head] + tail, sep) == head + (if tail == [] then "" else sep + Join(tail, sep))
  {
    assert ([head] + tail)[1..] == tail;
  }

  /** A join opens with its first part; a second part follows after the separator. */
  lemma JoinHead(head: string, tail: seq<string>, sep: string)
    ensures head <= Join([head] + tail, sep)
    ensures tail == [] ==> Join([head] + tail, sep) == head
    ensures tail != [] ==> |Join([head] + tail, sep)| >= |head| + |sep| && Join([head] + tail, sep)[|head|..|head| + |sep|] == sep
  {
    JoinCons(head, tail, sep);
  }

  function DigitChar(d: nat): char
    requires d < 10
  {
    "0123456789"[d]
  }

  predicate IsDigit(c: char)
  {
    '0' <= c <= '9'
  }

  /** Decimal notation of a natural number, as JavaScript's `String(n)` prints it. */
  function NatToString(n: nat): (r: string)
    ensures |r| >= 1
    ensures forall i :: 0 <= i < |r| ==> IsDigit(r[i])
  {
    if n < 10 then [DigitChar(n)] else NatToString(n / 10) + [DigitChar(n % 10)]
  }

  /** Decimal notation of an integer, with a leading '-' for negatives. */
  function IntToString(n: int): string
  {
    if n < 0 then "-" + NatToString(-n) else NatToString(n)
  }

  /** The value of a decimal digit string. */
  function ParseDigits(s: string): int
  {
    if s == [] then 0 else ParseDigits(s[..|s| - 1]) * 10 + (s[|s| - 1] as int - '0' as int)
  }

  /** Decimal notation round-trips. */
  lemma {:induction false} ParseNatToString(n: nat)
    ensures ParseDigits(NatToString(n)) == n
  {
    if n < 10 {
      assert NatToString(n)[..0] == [];
    } else {
      var s := NatToString(n);
      ParseNatToString(n / 10);
      assert s[..|s| - 1] == NatToString(n / 10);
    }
  }

  /** Different numbers print differently. */
  lemma NatToStringInjective(a: nat, b: nat)
    requires NatToString(a) == NatToString(b)
    ensures a == b
  {
    ParseNatToString(a);
    ParseNatToString(b);
  }
  /** Different integers print differently. */
  lemma IntToStringInjective(a: int, b: int)
    requires IntToString(a) == IntToString(b)
    ensures a == b
  {
    IntToStringSign(a);
    IntToStringSign(b);
    if a < 0 {
      assert NatToString(-a) == IntToString(a)[1..] == IntToString(b)[1..] == NatToString(-b);
      NatToStringInjective(-a, -b);
    } else {
      NatToStringInjective(a, b);
    }
  }

  /** The printed form starts with '-' exactly for negatives. */
  lemma IntToStringSign(n: int)
    ensures IntToString(n)[0] == '-' <==> n < 0
  {
    if n >= 0 {
      assert IsDigit(NatToString(n)[0]);
    }
  }

  /** `s.split(c)` for a one-character separator: the pieces between separators; the
      empty string splits into one empty piece. */
  function SplitOn(s: string, c: char): (r: seq<string>)
    ensures |r| >= 1
  {
    if s == [] then [""]
    else
      var rest := SplitOn(s[1..], c);
      if s[0] == c then [""] + rest else [[s[0]] + rest[0]] + rest[1..]
  }

  /** A separator-free prefix joins the first piece. */
  lemma {:induction false} SplitPrefix(w: string, rest: string, c: char)
    requires c !in w
    ensures SplitOn(w + rest, c) == [w + SplitOn(rest, c)[0]] + SplitOn(rest, c)[1..]
  {
    if w != [] {
      assert (w + rest)[0] == w[0];
      assert (w + rest)[1..] == w[1..] + rest;
      SplitPrefix(w[1..], rest, c);
      assert [w[0]] + (w[1..] + SplitOn(rest, c)[0]) == w + SplitOn(rest, c)[0];
    } else {
      var r := SplitOn(rest, c);
      assert w + rest == rest && w + r[0] == r[0];
      assert r == [r[0]] + r[1..];
    }
  }

  /** Splitting a join on its one-character separator gives the parts back, provided no
      part contains the separator. */
  lemma {:induction false} SplitJoin(parts: seq<string>, c: char)
    requires |parts| >= 1
    requires forall i :: 0 <= i < |parts| ==> c !in parts[i]
    ensures SplitOn(Join(parts, [c]), c) == parts
  {
    if |parts| == 1 {
      SplitPrefix(parts[0], "", c);
      assert parts[0] + "" == parts[0];
    } else {
      var tail := parts[1..];
      SplitJoin(tail, c);
      var j := Join(tail, [c]);
      assert Join(parts, [c]) == parts[0] + ([c] + j);
      SplitPrefix(parts[0], [c] + j, c);
      assert ([c] + j)[1..] == j;
      assert SplitOn([c] + j, c) == [""] + tail;
      assert parts[0] + "" == parts[0];
      assert parts == [parts[0]] + tail;
    }
  }

  /** `s.split(', ')`: the pieces between occurrences of the two-character separator
      comma-space, found left to right without overlap. */
  function SplitList(s: string): (r: seq<string>)
    ensures |r| >= 1
  {
    if s == [] then [""]
    else if |s| >= 2 && s[..2] == ", " then [""] + SplitList(s[2..])
    else
      var rest := SplitList(s[1..]);
      [[s[0]] + rest[0]] + rest[1..]
  }

  /** A comma-free prefix joins the first piece. */
  lemma {:induction false} SplitListPrefix(w: string, rest: string)
    requires ',' !in w
    ensures SplitList(w + rest) == [w + SplitList(rest)[0]] + SplitList(rest)[1..]
  {
    if w != [] {
      assert (w + rest)[0] == w[0];
      assert (w + rest)[1..] == w[1..] + rest;
      SplitListPrefix(w[1..], rest);
      assert [w[0]] + (w[1..] + SplitList(rest)[0]) == w + SplitList(rest)[0];
    } else {
      var r := SplitList(rest);
      assert w + rest == rest && w + r[0] == r[0];
      assert r == [r[0]] + r[1..];
    }
  }

  /** Splitting a comma-space join on comma-space gives the parts back, provided no part
      contains a comma. */
  lemma {:induction false} SplitListJoin(parts: seq<string>)
    requires |parts| >= 1
    requires forall i :: 0 <= i < |parts| ==> ',' !in parts[i]
    ensures SplitList(Join(parts, ", ")) == parts
  {
    if |parts| == 1 {
      SplitListPrefix(parts[0], "");
      assert parts[0] + "" == parts[0];
    } else {
      var tail := parts[1..];
      SplitListJoin(tail);
      var j := Join(tail, ", ");
      assert Join(parts, ", ") == parts[0] + (", " + j);
      SplitListPrefix(parts[0], ", " + j);
      assert (", " + j)[..2] == ", " && (", " + j)[2..] == j;
      assert SplitList(", " + j) == [""] + tail;
      assert parts[0] + "" == parts[0];
      assert parts == [parts[0]] + tail;
    }
  }

  /** A character in neither the parts nor the separator is not in the join. */
  lemma {:induction false} JoinAvoids(parts: seq<string>, sep: string, c: char)
    requires c !in sep && forall i :: 0 <= i < |parts| ==> c !in parts[i]
    ensures c !in Join(parts, sep)
  {
    if |parts| > 1 {
      JoinAvoids(parts[1..], sep, c);
    }
  }

  /** A string includes every middle piece of itself. */
  lemma IncludesMiddle(a: string, m: string, b: string)
    ensures Includes(a + m + b, m)
  {
    assert (a + m + b)[|a|..|a| + |m|] == m;
    assert OccursAt(a + m + b, m, |a|);
    IncludesAt(a + m + b, m);
  }

  /** What a string includes, any string around it includes too. */
  lemma IncludesWithin(x: string, m: string, p: string, q: string)
    requires Includes(x, m)
    ensures Includes(p + x + q, m)
  {
    IncludesAt(x, m);
    var k :| OccursAt(x, m, k);
    var y := p + x + q;
    assert y[|p| + k..|p| + k + |m|] == x[k..k + |m|];
    assert OccursAt(y, m, |p| + k);
    IncludesAt(y, m);
  }

  /** Every part of a join is a middle piece of it. */
  lemma {:induction false} JoinHasPart(parts: seq<string>, sep: string, i: int)
    requires 0 <= i < |parts|
    ensures exists pre, post :: Join(parts, sep) == pre + parts[i] + post
  {
    if |parts| == 1 {
      assert Join(parts, sep) == "" + parts[0] + "";
    } else if i == 0 {
      assert Join(parts, sep) == "" + parts[0] + (sep + Join(parts[1..], sep));
    } else {
      JoinHasPart(parts[1..], sep, i - 1);
      var pre, post :| Join(parts[1..], sep) == pre + parts[1..][i - 1] + post;
      assert Join(parts, sep) == (parts[0] + sep + pre) + parts[i] + post;
    }
  }
}
