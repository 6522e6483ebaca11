/** The named-parameter placeholders (`:name`) as they occur in the clauses
    of this data layer, and the string operations the data layer applies to
    statement text: Go's `strings.Join` and `strings.ReplaceAll`, and a
    whole-name renaming of placeholders.

    A placeholder is a `:` followed by the longest run of name characters
    (ASCII letters, digits, `_` and `.`). This agrees with the driver's
    named-query compiler on every clause these sources build; it is not the
    compiler's full grammar (see the README). */
module Placeholders {

  predicate IsNameChar(c: char)
  {
    ('a' <= c <= 'z') || ('A' <= c <= 'Z') || ('0' <= c <= '9') || c == '_' || c == '.'
  }

  /** A non-empty run of name characters: a valid column or parameter name. */
  predicate IsName(s: string)
  {
    |s| > 0 && forall i :: 0 <= i < |s| ==> IsNameChar(s[i])
  }

  /** True when `s` does not begin with a name character (so a name that ends
      right before `s` ends there). */
  predicate Stops(s: string)
  {
    s == [] || !IsNameChar(s[0])
  }

  /** The longest prefix of `s` made of name characters. */
  function NameRun(s: string): (n: string)
    ensures |n| <= |s| && n == s[..|n|]
    ensures forall i :: 0 <= i < |n| ==> IsNameChar(n[i])
    ensures Stops(s[|n|..])
    decreases |s|
  {
    if |s| > 0 && IsNameChar(s[0]) then [s[0]] + NameRun(s[1..]) else []
  }

  /** `s` begins with a placeholder. */
  predicate StartsPlaceholder(s: string)
  {
    |s| > 1 && s[0] == ':' && IsNameChar(s[1])
  }

  /** The names of the placeholders of `s`, left to right. */
  function Names(s: string): seq<string>
    decreases |s|
  {
    if s == [] then []
    else if StartsPlaceholder(s) then
      var n := NameRun(s[1..]);
      [n] + Names(s[1 + |n|..])
    else Names(s[1..])
  }

  /** The name a placeholder `n` gets under the renaming `ren`. */
  function Apply(ren: map<string, string>, n: string): string
  {
    if n in ren then ren[n] else n
  }

  function ApplyAll(ren: map<string, string>, ns: seq<string>): (r: seq<string>)
    ensures |r| == |ns|
    ensures forall i :: 0 <= i < |ns| ==> r[i] == Apply(ren, ns[i])
  {
    if ns == [] then [] else [Apply(ren, ns[0])] + ApplyAll(ren, ns[1..])
  }

  predicate RenamesToNames(ren: map<string, string>)
  {
    forall n :: n in ren ==> IsName(ren[n])
  }

  /** Renames every placeholder of `s` whose WHOLE name is a key of `ren`,
      in one left-to-right pass; all other text is kept. */
  function Rename(s: string, ren: map<string, string>): string
    decreases |s|
  {
    if s == [] then []
    else if StartsPlaceholder(s) then
      var n := NameRun(s[1..]);
      ":" + Apply(ren, n) + Rename(s[1 + |n|..], ren)
    else [s[0]] + Rename(s[1..], ren)
  }

  /** Go's `strings.ReplaceAll(s, pat, rep)` for a non-empty `pat`: every
      leftmost non-overlapping occurrence of `pat` is replaced. */
  function ReplaceAll(s: string, pat: string, rep: string): string
    requires |pat| > 0
    decreases |s|
  {
    if |s| < |pat| then s
    else if s[..|pat|] == pat then rep + ReplaceAll(s[|pat|..], pat, rep)
    else [s[0]] + ReplaceAll(s[1..], pat, rep)
  }

  /** Go's `strings.Join`. */
  function Join(parts: seq<string>, sep: string): string
  {
    if parts == [] then ""
    else if |parts| == 1 then parts[0]
    else parts[0] + sep + Join(parts[1..], sep)
  }

  /** The placeholder names of each part, concatenated. */
  function ConcatNames(parts: seq<string>): seq<string>
  {
    if parts == [] then [] else Names(parts[0]) + ConcatNames(parts[1..])
  }

  // ---------------------------------------------------------------------------
  // Lemmas about the placeholder grammar

  lemma {:induction false} NameRunOfName(m: string, rest: string)
    requires forall i :: 0 <= i < |m| ==> IsNameChar(m[i])
    requires Stops(rest)
    ensures NameRun(m + rest) == m
    decreases |m|
  {
    if m == [] {
      assert m + rest == rest;
    } else {
      assert (m + rest)[1..] == m[1..] + rest;
      NameRunOfName(m[1..], rest);
    }
  }

  lemma {:induction false} NameRunAppend(x: string, b: string)
    requires Stops(b)
    ensures NameRun(x + b) == NameRun(x)
    decreases |x|
  {
    if x == [] {
      assert x + b == b;
    } else if IsNameChar(x[0]) {
      assert (x + b)[1..] == x[1..] + b;
      NameRunAppend(x[1..], b);
    }
  }

  /** Text without a colon holds no placeholder and does not change how what
      follows it is read. */
  lemma {:induction false} NamesNoColon(p: string, s: string)
    requires ':' !in p
    ensures Names(p + s) == Names(s)
    decreases |p|
  {
    if p != [] {
      assert p[0] in p;
      assert (p + s)[1..] == p[1..] + s;
      assert ':' !in p[1..] by {
        forall i | 0 <= i < |p[1..]| ensures p[1..][i] != ':' {
          assert p[1..][i] == p[i + 1];
        }
      }
      NamesNoColon(p[1..], s);
    } else {
      assert p + s == s;
    }
  }

  /** Reading `a + b` reads `a` then `b`, when `b` cannot extend a name that ends `a`. */
  lemma {:induction false} NamesAppend(a: string, b: string)
    requires Stops(b)
    ensures Names(a + b) == Names(a) + Names(b)
    decreases |a|, 1
  {
    if a == [] {
      assert a + b == b;
    } else if StartsPlaceholder(a) {
      NamesAppendPlaceholder(a, b);
    } else {
      NamesAppendOther(a, b);
    }
  }

  lemma {:induction false} NamesAppendPlaceholder(a: string, b: string)
    requires Stops(b) && StartsPlaceholder(a)
    ensures Names(a + b) == Names(a) + Names(b)
    decreases |a|, 0
  {
    var n := NameRun(a[1..]);
    var rest := a[1 + |n|..];
    StartOfAppend(a, b);
    SliceOfAppend(a, b, 1 + |n|);
    NamesAppend(rest, b);
    NamesOfStart(a + b, n, rest + b);
    NamesOfStart(a, n, rest);
    ConsAssoc(n, Names(rest), Names(b));
  }

  lemma NoColonAppend(p: string, q: string)
    requires ':' !in p && ':' !in q
    ensures ':' !in p + q
  {
  }

  lemma AppendEmpty<T>(s: seq<T>)
    ensures s + [] == s
  {
  }

  lemma ConsTail<T>(s: seq<T>)
    requires s != []
    ensures s == [s[0]] + s[1..]
  {
  }

  /** A string that starts with a placeholder is the colon, the name, and
      text that stops the name. */
  lemma SplitAtPlaceholder(s: string)
    requires StartsPlaceholder(s)
    ensures var n := NameRun(s[1..]);
      && s == ":" + n + s[1 + |n|..]
      && Stops(s[1 + |n|..])
      && n != [] && n[0] == s[1]
  {
    var n := NameRun(s[1..]);
    assert s[1..][0] == s[1];
    assert s[1..] == n + s[1 + |n|..];
    assert s[1 + |n|..] == s[1..][|n|..];
  }

  lemma SliceOfAppend<T>(a: seq<T>, b: seq<T>, k: nat)
    requires k <= |a|
    ensures (a + b)[k..] == a[k..] + b
  {
  }

  /** A placeholder that `b` cannot extend keeps its name when `b` follows. */
  lemma StartOfAppend(a: string, b: string)
    requires StartsPlaceholder(a) && Stops(b)
    ensures StartsPlaceholder(a + b) && NameRun((a + b)[1..]) == NameRun(a[1..])
  {
    var ab := a + b;
    assert ab[0] == a[0] && ab[1] == a[1];
    SliceOfAppend(a, b, 1);
    NameRunAppend(a[1..], b);
  }

  lemma ConsAssoc<T>(x: T, p: seq<T>, q: seq<T>)
    ensures [x] + (p + q) == [x] + p + q
  {
  }

  /** How a string that starts with a placeholder is read. */
  lemma NamesOfStart(s: string, n: string, rest: string)
    requires StartsPlaceholder(s) && NameRun(s[1..]) == n && rest == s[1 + |n|..]
    ensures Names(s) == [n] + Names(rest)
  {
  }

  lemma {:induction false} NamesAppendOther(a: string, b: string)
    requires Stops(b) && a != [] && !StartsPlaceholder(a)
    ensures Names(a + b) == Names(a) + Names(b)
    decreases |a|, 0
  {
    var ab := a + b;
    assert ab[0] == a[0];
    assert !StartsPlaceholder(ab) by {
      if |a| > 1 { assert ab[1] == a[1]; }
      else if |ab| > 1 { assert ab[1] == b[0]; }
    }
    assert ab[1..] == a[1..] + b;
    NamesAppend(a[1..], b);
    assert Names(ab) == Names(ab[1..]);
  }

  /** A single placeholder `:m`, possibly followed by text that stops the name. */
  lemma NamesOfPlaceholder(m: string, rest: string)
    requires IsName(m) && Stops(rest)
    ensures Names(":" + m + rest) == [m] + Names(rest)
  {
    var s := ":" + m + rest;
    assert s[1..] == m + rest;
    NameRunOfName(m, rest);
    assert s[1 + |m|..] == rest;
  }

  lemma {:induction false} RenameFirst(s: string, ren: map<string, string>)
    requires s != []
    ensures Rename(s, ren) != [] && Rename(s, ren)[0] == s[0]
  {
  }

  /** Renaming whole names renames exactly the placeholders, in place. */
  lemma {:induction false} NamesOfRename(s: string, ren: map<string, string>)
    requires RenamesToNames(ren)
    ensures Names(Rename(s, ren)) == ApplyAll(ren, Names(s))
    decreases |s|
  {
    if s == [] {
    } else if StartsPlaceholder(s) {
      var n := NameRun(s[1..]);
      var rest := s[1 + |n|..];
      var m := Apply(ren, n);
      assert IsName(m) by {
        if n !in ren {
          assert s[1..][0] == s[1];
        }
      }
      var R := Rename(rest, ren);
      assert Stops(rest) by {
        assert rest == s[1..][|n|..];
      }
      assert Stops(R) by {
        if rest != [] { RenameFirst(rest, ren); }
      }
      assert Rename(s, ren) == ":" + m + R;
      NamesOfPlaceholder(m, R);
      NamesOfRename(rest, ren);
    } else {
      var R := Rename(s[1..], ren);
      assert Rename(s, ren) == [s[0]] + R;
      if s[1..] != [] { RenameFirst(s[1..], ren); }
      assert !StartsPlaceholder([s[0]] + R);
      assert ([s[0]] + R)[1..] == R;
      NamesOfRename(s[1..], ren);
    }
  }

  lemma {:induction false} RenameNoColon(p: string, s: string, ren: map<string, string>)
    requires ':' !in p
    ensures Rename(p + s, ren) == p + Rename(s, ren)
    decreases |p|
  {
    if p == [] {
      assert p + s == s;
    } else {
      assert p[0] in p;
      assert (p + s)[1..] == p[1..] + s;
      assert ':' !in p[1..] by {
        forall i | 0 <= i < |p[1..]| ensures p[1..][i] != ':' {
          assert p[1..][i] == p[i + 1];
        }
      }
      RenameNoColon(p[1..], s, ren);
    }
  }

  lemma {:induction false} ReplaceAllNoColon(p: string, s: string, pat: string, rep: string)
    requires |pat| > 0 && pat[0] == ':' && ':' !in p
    ensures ReplaceAll(p + s, pat, rep) == p + ReplaceAll(s, pat, rep)
    decreases |p|
  {
    var ps := p + s;
    if p == [] {
      assert ps == s;
    } else {
      assert p[0] in p;
      assert ps[0] == p[0];
      assert ps[1..] == p[1..] + s;
      assert ':' !in p[1..] by {
        forall i | 0 <= i < |p[1..]| ensures p[1..][i] != ':' {
          assert p[1..][i] == p[i + 1];
        }
      }
      ReplaceAllNoColon(p[1..], s, pat, rep);
      if |ps| >= |pat| {
        assert ps[..|pat|] != pat by {
          assert ps[..|pat|][0] == p[0];
        }
        assert ReplaceAll(ps, pat, rep) == [p[0]] + ReplaceAll(ps[1..], pat, rep);
      } else {
        assert |s| < |pat|;
      }
    }
  }

  lemma ReplaceAllMatch(pat: string, rep: string, s: string)
    requires |pat| > 0
    ensures ReplaceAll(pat + s, pat, rep) == rep + ReplaceAll(s, pat, rep)
  {
    assert (pat + s)[..|pat|] == pat;
    assert (pat + s)[|pat|..] == s;
  }

  /** Where `pat` does not start `s`, its first character is kept. */
  lemma {:induction false} ReplaceAllMiss(pat: string, rep: string, s: string)
    requires |pat| > 0 && s != []
    requires |s| < |pat| || s[..|pat|] != pat
    ensures ReplaceAll(s, pat, rep) == [s[0]] + ReplaceAll(s[1..], pat, rep)
  {
    if |s| < |pat| {
      assert ReplaceAll(s[1..], pat, rep) == s[1..];
      assert s == [s[0]] + s[1..];
    }
  }

  /** Name characters never include the colon. */
  lemma NameHasNoColon(n: string)
    requires forall i :: 0 <= i < |n| ==> IsNameChar(n[i])
    ensures ':' !in n
  {
    forall i | 0 <= i < |n| ensures n[i] != ':' {
      assert IsNameChar(n[i]);
    }
  }

  predicate IsPrefix(k: string, n: string)
  {
    |k| <= |n| && n[..|k|] == k
  }

  /** No name in `ns` properly extends `k`. */
  predicate NoExtension(k: string, ns: seq<string>)
  {
    forall i :: 0 <= i < |ns| ==> ns[i] == k || !IsPrefix(k, ns[i])
  }

  /** Go's `strings.ReplaceAll(s, ":"+k, ":"+k2)` renames whole placeholders
      exactly when no placeholder of `s` properly extends the name `k`;
      otherwise it also rewrites the longer names (see `SqlHandler`). */
  lemma {:induction false} ReplaceAllIsRename(s: string, k: string, k2: string)
    requires IsName(k) && IsName(k2)
    requires NoExtension(k, Names(s))
    ensures ReplaceAll(s, ":" + k, ":" + k2) == Rename(s, map[k := k2])
    decreases |s|, 1
  {
    if s == [] {
    } else if StartsPlaceholder(s) {
      ReplaceAllIsRenamePlaceholder(s, k, k2);
    } else {
      ReplaceAllIsRenameOther(s, k, k2);
    }
  }

  lemma {:induction false} ReplaceAllIsRenamePlaceholder(s: string, k: string, k2: string)
    requires IsName(k) && IsName(k2) && StartsPlaceholder(s)
    requires NoExtension(k, Names(s))
    ensures ReplaceAll(s, ":" + k, ":" + k2) == Rename(s, map[k := k2])
    decreases |s|, 0
  {
    var pat, rep, ren := ":" + k, ":" + k2, map[k := k2];
    var n := NameRun(s[1..]);
    var rest := s[1 + |n|..];
    PlaceholderSplit(s, k, ren);
    ReplaceAllIsRename(rest, k, k2);
    if n == k {
      ReplaceAllMatch(pat, rep, rest);
    } else {
      NotAtStart(s, k, n, rest);
      AppendAssoc(":", n, rest);
      AppendAssoc(":", n, ReplaceAll(rest, pat, rep));
      ReplaceAllSkipsName(s, pat, n, rest, rep);
    }
  }

  /** The pieces of a string that starts with the placeholder `:n`. */
  lemma PlaceholderSplit(s: string, k: string, ren: map<string, string>)
    requires StartsPlaceholder(s)
    requires NoExtension(k, Names(s))
    ensures var n := NameRun(s[1..]); var rest := s[1 + |n|..];
      && s == ":" + n + rest
      && Stops(rest)
      && Names(s)[0] == n
      && (n == k || !IsPrefix(k, n))
      && NoExtension(k, Names(rest))
      && |rest| < |s|
      && Rename(s, ren) == ":" + Apply(ren, n) + Rename(rest, ren)
  {
    var n := NameRun(s[1..]);
    var rest := s[1 + |n|..];
    assert s[1..][0] == s[1];
    assert Names(s) == [n] + Names(rest);
    assert NoExtension(k, Names(rest)) by {
      forall i | 0 <= i < |Names(rest)|
        ensures Names(rest)[i] == k || !IsPrefix(k, Names(rest)[i])
      {
        assert Names(rest)[i] == Names(s)[i + 1];
      }
    }
    assert s[1..] == n + rest;
    assert Stops(rest) by {
      assert rest == s[1..][|n|..];
    }
  }

  /** A placeholder that `pat` does not start passes through the
      replacement unchanged. */
  lemma ReplaceAllSkipsName(s: string, pat: string, n: string, rest: string, rep: string)
    requires |pat| > 0 && pat[0] == ':'
    requires |s| < |pat| || s[..|pat|] != pat
    requires forall i :: 0 <= i < |n| ==> IsNameChar(n[i])
    requires s == [':'] + (n + rest)
    ensures ReplaceAll(s, pat, rep) == [':'] + (n + ReplaceAll(rest, pat, rep))
  {
    ReplaceAllMiss(pat, rep, s);
    assert s[1..] == n + rest;
    NameHasNoColon(n);
    ReplaceAllNoColon(n, rest, pat, rep);
  }

  lemma AppendAssoc(a: string, b: string, c: string)
    ensures a + b + c == a + (b + c)
  {
  }

  lemma NotAtStart(s: string, k: string, n: string, rest: string)
    requires IsName(k) && n != k && !IsPrefix(k, n)
    requires forall i :: 0 <= i < |n| ==> IsNameChar(n[i])
    requires s == ":" + n + rest && Stops(rest)
    ensures |s| < |":" + k| || s[..|":" + k|] != ":" + k
  {
    var pat := ":" + k;
    if |s| >= |pat| {
      if |k| <= |n| {
        assert n[..|k|] != k;
        var i :| 0 <= i < |k| && n[..|k|][i] != k[i];
        assert s[..|pat|][i + 1] == n[i] && pat[i + 1] == k[i];
      } else {
        assert s[..|pat|][|n| + 1] == rest[0];
        assert pat[|n| + 1] == k[|n|];
      }
    }
  }

  lemma {:induction false} ReplaceAllIsRenameOther(s: string, k: string, k2: string)
    requires IsName(k) && IsName(k2) && s != [] && !StartsPlaceholder(s)
    requires NoExtension(k, Names(s))
    ensures ReplaceAll(s, ":" + k, ":" + k2) == Rename(s, map[k := k2])
    decreases |s|, 0
  {
    var pat, rep, ren := ":" + k, ":" + k2, map[k := k2];
    var tail := s[1..];
    assert Names(s) == Names(tail);
    ReplaceAllIsRename(tail, k, k2);
    NoPlaceholderNoMatch(s, k);
    ReplaceAllMiss(pat, rep, s);
    assert Rename(s, ren) == [s[0]] + Rename(tail, ren);
  }

  /** A string that does not start with a placeholder does not start with
      `:k`. */
  lemma NoPlaceholderNoMatch(s: string, k: string)
    requires IsName(k) && s != [] && !StartsPlaceholder(s)
    ensures |s| < |":" + k| || s[..|":" + k|] != ":" + k
  {
    var pat := ":" + k;
    if |s| >= |pat| {
      assert s[..|pat|][0] == s[0] && s[..|pat|][1] == s[1];
      assert pat[0] == ':' && pat[1] == k[0];
    }
  }

  /** The placeholders of a joined list are those of its parts, in order,
      when the separator holds none and stops names. */
  lemma {:induction false} NamesOfJoin(parts: seq<string>, sep: string)
    requires |sep| > 0 && !IsNameChar(sep[0]) && ':' !in sep
    ensures Names(Join(parts, sep)) == ConcatNames(parts)
    decreases |parts|
  {
    if |parts| > 1 {
      var rest := Join(parts[1..], sep);
      assert Join(parts, sep) == parts[0] + (sep + rest);
      NamesAppend(parts[0], sep + rest);
      NamesNoColon(sep, rest);
      NamesOfJoin(parts[1..], sep);
    } else if |parts| == 1 {
      assert ConcatNames(parts[1..]) == [];
    }
  }

  lemma {:induction false} ConcatNamesAppend(a: seq<string>, b: seq<string>)
    ensures ConcatNames(a + b) == ConcatNames(a) + ConcatNames(b)
    decreases |a|
  {
    if a == [] {
      assert a + b == b;
    } else {
      assert (a + b)[1..] == a[1..] + b;
      ConcatNamesAppend(a[1..], b);
    }
  }
}
