/**
 * The few java.lang.String operations the listener relies on:
 * startsWith, trim and split(":").
 */
module JavaStrings {

  /** String.startsWith */
  predicate StartsWith(s: string, prefix: string)
  {
    |prefix| <= |s| && s[..|prefix|] == prefix
  }

  // ---------------------------------------------------------------- trim

  /** String.trim removes every character at or below U+0020 from both ends. */
  predicate IsTrimmable(c: char)
  {
    c <= ' '
  }

  /** `s` neither starts nor ends with a trimmable character. */
  predicate IsTrimmed(s: string)
  {
    s == [] || (!IsTrimmable(s[0]) && !IsTrimmable(s[|s| - 1]))
  }

  function TrimStart(s: string): (r: string)
    ensures |r| <= |s| && r == s[|s| - |r|..]
    ensures forall i :: 0 <= i < |s| - |r| ==> IsTrimmable(s[i])
    ensures r == [] || !IsTrimmable(r[0])
  {
    if s != [] && IsTrimmable(s[0]) then TrimStart(s[1..]) else s
  }

  function TrimEnd(s: string): (r: string)
    ensures |r| <= |s| && r == s[..|r|]
    ensures forall i :: |r| <= i < |s| ==> IsTrimmable(s[i])
    ensures r == [] || !IsTrimmable(r[|r| - 1])
  {
    if s != [] && IsTrimmable(s[|s| - 1]) then TrimEnd(s[..|s| - 1]) else s
  }

  /** `r` is the part of `s` from index `i` on, with only trimmable characters around it. */
  predicate StripsTo(s: string, r: string, i: int)
  {
    && 0 <= i <= |s| - |r|
    && r == s[i..i + |r|]
    && (forall j :: 0 <= j < i ==> IsTrimmable(s[j]))
    && (forall j :: i + |r| <= j < |s| ==> IsTrimmable(s[j]))
  }

  /**
   * String.trim: the middle of `s` left once every character <= ' ' is
   * removed from both ends.
   */
  function Trim(s: string): (r: string)
    ensures IsTrimmed(r)
    ensures |r| <= |s|
    ensures exists i :: StripsTo(s, r, i)
  {
    var t := TrimStart(s);
    var r := TrimEnd(t);
    assert r != [] ==> r[0] == t[0];
    StripsBetween(s, t, r);
    r
  }

  /**
   * Cutting blanks off the front of `s` (giving `t`) and then off the back of
   * `t` (giving `r`) leaves `r` in `s` with only blanks around it.
   */
  lemma StripsBetween(s: string, t: string, r: string)
    requires |t| <= |s| && t == s[|s| - |t|..]
    requires forall j :: 0 <= j < |s| - |t| ==> IsTrimmable(s[j])
    requires |r| <= |t| && r == t[..|r|]
    requires forall j :: |r| <= j < |t| ==> IsTrimmable(t[j])
    ensures StripsTo(s, r, |s| - |t|)
  {
    var i := |s| - |t|;
    assert r == s[i..i + |r|];
    forall j | i + |r| <= j < |s|
      ensures IsTrimmable(s[j])
    {
      assert s[j] == t[j - i];
    }
  }

  /** A string without surrounding blanks is its own trim. */
  lemma {:induction false} TrimOfTrimmed(s: string)
    requires IsTrimmed(s)
    ensures Trim(s) == s
  {
    assert TrimStart(s) == s;
    assert TrimEnd(s) == s;
  }

  /** Trimming twice is trimming once. */
  lemma TrimIdempotent(s: string)
    ensures Trim(Trim(s)) == Trim(s)
  {
    TrimOfTrimmed(Trim(s));
  }

  // --------------------------------------------------------------- split

  /** The fields of `s` between every ':' (all of them, empty ones included). */
  function SplitAll(s: string): (r: seq<string>)
    ensures |r| >= 1
    ensures forall i :: 0 <= i < |r| ==> ':' !in r[i]
  {
    if s == [] then [""]
    else
      var rest := SplitAll(s[1..]);
      if s[0] == ':' then [""] + rest
      else [[s[0]] + rest[0]] + rest[1..]
  }

  /** The inverse of SplitAll: the fields glued back with ':'. */
  function Join(fields: seq<string>): string
  {
    if fields == [] then ""
    else if |fields| == 1 then fields[0]
    else fields[0] + ":" + Join(fields[1..])
  }

  /** `k` empty strings. */
  function Empties(k: nat): (r: seq<string>)
    ensures |r| == k && forall i :: 0 <= i < k ==> r[i] == ""
  {
    seq(k, _ => "")
  }

  /** `k` colons. */
  function Colons(k: nat): (r: string)
    ensures |r| == k && forall i :: 0 <= i < k ==> r[i] == ':'
  {
    seq(k, _ => ':')
  }

  /** Java's limit-0 split drops every trailing empty string. */
  function DropTrailingEmpty(fields: seq<string>): (r: seq<string>)
    ensures |r| <= |fields| && r == fields[..|r|]
    ensures forall i :: |r| <= i < |fields| ==> fields[i] == ""
    ensures r == [] || r[|r| - 1] != ""
  {
    if fields == [] then []
    else if fields[|fields| - 1] == "" then DropTrailingEmpty(fields[..|fields| - 1])
    else fields
  }

  /**
   * String.split(":"): when no ':' occurs the result is the whole string
   * (even the empty one); otherwise the fields between the colons, leading
   * empty ones kept and trailing empty ones dropped.
   */
  function Split(s: string): (r: seq<string>)
    ensures forall i :: 0 <= i < |r| ==> ':' !in r[i]
    ensures ':' in s ==> r == [] || r[|r| - 1] != ""
  {
    if ':' !in s then [s] else DropTrailingEmpty(SplitAll(s))
  }

  // ------------------------------------------------------- split lemmas

  /** Splitting then joining gives back the input. */
  lemma {:induction false} JoinSplitAll(s: string)
    ensures Join(SplitAll(s)) == s
  {
    if s != [] {
      var rest := SplitAll(s[1..]);
      JoinSplitAll(s[1..]);
      if s[0] == ':' {
        assert s == [':'] + s[1..];
      } else if |rest| == 1 {
        assert s == [s[0]] + s[1..];
      } else {
        assert Join(rest) == rest[0] + ":" + Join(rest[1..]);
        assert SplitAll(s)[1..] == rest[1..];
        assert s == [s[0]] + s[1..];
      }
    }
  }

  /** A colon-free head glues onto the first field of what follows it. */
  lemma {:induction false} SplitAllGlue(a: string, t: string)
    requires ':' !in a
    ensures SplitAll(a + t) == [a + SplitAll(t)[0]] + SplitAll(t)[1..]
  {
    var r := SplitAll(t);
    if a == [] {
      assert a + t == t;
      assert a + r[0] == r[0];
      assert [r[0]] + r[1..] == r;
    } else {
      SplitAllGlue(a[1..], t);
      assert (a + t)[0] == a[0] && a[0] != ':';
      assert (a + t)[1..] == a[1..] + t;
      assert [a[0]] + (a[1..] + r[0]) == a + r[0];
    }
  }

  /** Joining colon-free fields then splitting gives back the fields. */
  lemma {:induction false} SplitAllJoin(fields: seq<string>)
    requires |fields| >= 1
    requires forall i :: 0 <= i < |fields| ==> ':' !in fields[i]
    ensures SplitAll(Join(fields)) == fields
  {
    if |fields| == 1 {
      SplitAllGlue(fields[0], "");
      assert fields[0] + "" == fields[0];
    } else {
      var tail := fields[1..];
      SplitAllJoin(tail);
      SplitAllGlue(fields[0], ":" + Join(tail));
      assert (":" + Join(tail))[1..] == Join(tail);
      var glued := SplitAll(":" + Join(tail));
      assert glued == [""] + tail;
      assert glued[0] == "" && glued[1..] == tail;
      assert fields[0] + "" == fields[0];
      assert Join(fields) == fields[0] + ":" + Join(tail);
      assert fields[0] + ":" + Join(tail) == fields[0] + (":" + Join(tail));
      assert fields == [fields[0]] + tail;
    }
  }

  /** The join of a pair followed by `k` empty fields. */
  lemma {:induction false} JoinPairEmpties(a: string, b: string, k: nat)
    ensures Join([a, b] + Empties(k)) == a + ":" + b + Colons(k)
  {
    JoinFieldEmpties(b, k);
    assert ([a, b] + Empties(k))[1..] == [b] + Empties(k);
  }

  lemma {:induction false} JoinFieldEmpties(b: string, k: nat)
    decreases k
    ensures Join([b] + Empties(k)) == b + Colons(k)
  {
    if k > 0 {
      JoinFieldEmpties("", k - 1);
      assert ([b] + Empties(k))[1..] == [""] + Empties(k - 1);
      assert Colons(k) == ":" + Colons(k - 1);
    } else {
      assert [b] + Empties(0) == [b];
    }
  }

  lemma {:induction false} DropEmpties(a: string, b: string, k: nat)
    requires b != ""
    ensures DropTrailingEmpty([a, b] + Empties(k)) == [a, b]
  {
    if k > 0 {
      assert ([a, b] + Empties(k))[..k + 1] == [a, b] + Empties(k - 1);
      DropEmpties(a, b, k - 1);
    } else {
      assert [a, b] + Empties(0) == [a, b];
    }
  }

  /**
   * The strings split(":") cuts into exactly two parts: a colon-free field,
   * a colon, a non-empty colon-free field and any number of trailing colons.
   */
  lemma SplitOfPair(a: string, b: string, k: nat)
    requires ':' !in a && ':' !in b && b != ""
    ensures Split(a + ":" + b + Colons(k)) == [a, b]
  {
    var fields := [a, b] + Empties(k);
    JoinPairEmpties(a, b, k);
    SplitAllJoin(fields);
    DropEmpties(a, b, k);
    assert (a + ":" + b + Colons(k))[|a|] == ':';
  }

  /** The converse of SplitOfPair: every two-part split has that shape. */
  lemma SplitPairShape(s: string)
    requires |Split(s)| == 2
    ensures exists k: nat :: s == Split(s)[0] + ":" + Split(s)[1] + Colons(k)
  {
    assert ':' in s;
    var fields := SplitAll(s);
    var r := Split(s);
    var k := |fields| - 2;
    assert fields == r + Empties(k);
    JoinSplitAll(s);
    JoinPairEmpties(r[0], r[1], k);
    assert r == [r[0], r[1]];
  }

  /** A string with no ':' splits into itself alone. */
  lemma SplitNoColon(s: string)
    requires ':' !in s
    ensures |Split(s)| == 1 && Split(s)[0] == s
  {
  }

  /** A leading ':' closes an empty first field. */
  lemma SplitAllAfterColon(t: string)
    ensures SplitAll(":" + t) == [""] + SplitAll(t)
  {
    assert (":" + t)[1..] == t;
  }

  /** SplitAll finds a and b first in a + ":" + b + ":" + rest, then the fields of rest. */
  lemma SplitAllLeadingFields(a: string, b: string, rest: string)
    requires ':' !in a && ':' !in b
    ensures SplitAll(a + ":" + b + ":" + rest) == [a, b] + SplitAll(rest)
  {
    var s := a + ":" + b + ":" + rest;
    var tail := b + (":" + rest);
    assert s == a + (":" + tail);
    var r := SplitAll(":" + rest);
    SplitAllAfterColon(rest);
    assert r == [""] + SplitAll(rest);
    SplitAllGlue(b, ":" + rest);
    var t := SplitAll(tail);
    assert t == [b + r[0]] + r[1..];
    assert b + r[0] == b && r[1..] == SplitAll(rest);
    assert t == [b] + SplitAll(rest);
    SplitAllAfterColon(tail);
    var u := SplitAll(":" + tail);
    assert u == [""] + t;
    SplitAllGlue(a, ":" + tail);
    assert SplitAll(s) == [a + u[0]] + u[1..];
    assert a + u[0] == a && u[1..] == t;
    assert [a] + ([b] + SplitAll(rest)) == [a, b] + SplitAll(rest);
  }

  /** A character other than ':' ends up in a non-empty field. */
  lemma {:induction false} NonColonField(s: string, i: nat)
    requires i < |s| && s[i] != ':'
    ensures exists j :: 0 <= j < |SplitAll(s)| && SplitAll(s)[j] != ""
  {
    if s[0] != ':' {
      assert SplitAll(s)[0] != "";
    } else {
      NonColonField(s[1..], i - 1);
      var j :| 0 <= j < |SplitAll(s[1..])| && SplitAll(s[1..])[j] != "";
      assert SplitAll(s)[j + 1] != "";
    }
  }

  /**
   * Split keeps the two leading fields of a string and ignores what follows
   * them, as long as something other than a trailing run of empty fields
   * comes after the first.
   */
  lemma SplitExtraFields(a: string, b: string, rest: string)
    requires ':' !in a && ':' !in b
    requires b != "" || exists i :: 0 <= i < |rest| && rest[i] != ':'
    ensures |Split(a + ":" + b + ":" + rest)| >= 2
    ensures Split(a + ":" + b + ":" + rest)[..2] == [a, b]
  {
    var s := a + ":" + b + ":" + rest;
    SplitAllLeadingFields(a, b, rest);
    var fields := SplitAll(s);
    assert s[|a|] == ':';
    var r := DropTrailingEmpty(fields);
    if b != "" {
      assert fields[1] != "";
    } else {
      var i :| 0 <= i < |rest| && rest[i] != ':';
      NonColonField(rest, i);
      var j :| 0 <= j < |SplitAll(rest)| && SplitAll(rest)[j] != "";
      assert fields[j + 2] != "";
    }
    assert |r| >= 2;
    assert r[..2] == fields[..2];
  }
}
