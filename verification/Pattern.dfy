/** SQL's LIKE with its two wildcards and the backslash escape, as the balance query of the
    fee sweep uses it (backend/src/queries/infra.queries.ts). */
module Pattern {

  predicate StartsWith(s: string, p: string) { p <= s }

  predicate EndsWith(s: string, p: string) { |p| <= |s| && s[|s| - |p|..] == p }

  predicate Like(p: string, s: string)
    decreases |p| + |s|
  {
    if p == "" then s == ""
    else if p[0] == '%' then Like(p[1..], s) || (s != "" && Like(p, s[1..]))
    else if p[0] == '\\' && |p| > 1 then s != "" && s[0] == p[1] && Like(p[2..], s[1..])
    else s != "" && (p[0] == '_' || p[0] == s[0]) && Like(p[1..], s[1..])
  }

  predicate PlainChar(c: char) { c != '%' && c != '_' && c != '\\' }

  /** No character with a meaning of its own. */
  predicate Plain(p: string) { forall i :: 0 <= i < |p| ==> PlainChar(p[i]) }

  /** A plain head is matched letter by letter. */
  lemma {:induction false} LikeHead(p: string, rest: string, s: string)
    requires Plain(p)
    ensures Like(p + rest, s) <==> p <= s && Like(rest, s[|p|..])
  {
    if p == "" {
      assert p + rest == rest && s[0..] == s;
    } else {
      var q := p + rest;
      assert PlainChar(p[0]) && q[0] == p[0] && q[1..] == p[1..] + rest;
      if s != "" && s[0] == p[0] {
        LikeHead(p[1..], rest, s[1..]);
        assert p == [p[0]] + p[1..] && s == [s[0]] + s[1..];
        if |p| <= |s| { assert s[1..][|p| - 1..] == s[|p|..]; }
      }
    }
  }

  lemma {:induction false} LikePlain(p: string, s: string)
    requires Plain(p)
    ensures Like(p, s) <==> p == s
  {
    LikeHead(p, "", s);
    assert p + "" == p;
    if p <= s { assert s == p + s[|p|..]; }
  }

  /** A percent sign before a plain tail asks only how the string ends. */
  lemma {:induction false} LikeTail(q: string, s: string)
    requires Plain(q)
    ensures Like("%" + q, s) <==> EndsWith(s, q)
    decreases |s|
  {
    var p := "%" + q;
    assert p[1..] == q;
    LikePlain(q, s);
    if s != "" {
      LikeTail(q, s[1..]);
      if |q| < |s| { assert s[1..][|s| - 1 - |q|..] == s[|s| - |q|..]; }
    }
    if |q| >= |s| { assert EndsWith(s, q) <==> s == q; }
  }

  /** The first letter of a match. */
  lemma {:induction false} LikeFirst(p: string, s: string)
    requires p != "" && PlainChar(p[0]) && Like(p, s)
    ensures s != "" && s[0] == p[0]
  {
  }

  lemma {:induction false} PlainConcat(p: string, q: string)
    ensures Plain(p + q) <==> Plain(p) && Plain(q)
  {
    var r := p + q;
    assert forall i :: 0 <= i < |p| ==> r[i] == p[i];
    assert forall i :: 0 <= i < |q| ==> r[|p| + i] == q[i];
  }

  lemma {:induction false} EndSnoc(s: string, x: char, t: string, y: char)
    ensures EndsWith(s + [x], t + [y]) <==> x == y && EndsWith(s, t)
  {
    if |t| <= |s| {
      assert (s + [x])[|s| - |t|..] == s[|s| - |t|..] + [x];
      assert (s[|s| - |t|..] + [x])[|t|] == x && (t + [y])[|t|] == y;
      assert (s[|s| - |t|..] + [x])[..|t|] == s[|s| - |t|..] && (t + [y])[..|t|] == t;
    }
  }

  lemma {:induction false} DropLast(head: string, c: char, last: string)
    requires last != ""
    ensures head + [c] + last == head + [c] + last[..|last| - 1] + [last[|last| - 1]]
  {
  }

  /** Strings joined by a separator that their last parts do not contain end alike exactly
      when the last parts are equal and what stands before ends alike. */
  lemma {:induction false} LastParts(head: string, last: string, c: char, before: string, other: string)
    requires c !in last && c !in other
    ensures EndsWith(head + [c] + last, before + [c] + other) <==> last == other && EndsWith(head, before)
    decreases |last|
  {
    var i, k := |last| - 1, |other| - 1;
    if last == "" && other == "" {
      EndSnoc(head, c, before, c);
      assert head + [c] + last == head + [c] && before + [c] + other == before + [c];
    } else if last == "" {
      DropLast(before, c, other);
      EndSnoc(head, c, before + [c] + other[..k], other[k]);
      assert head + [c] + last == head + [c];
    } else if other == "" {
      DropLast(head, c, last);
      EndSnoc(head + [c] + last[..i], last[i], before, c);
      assert before + [c] + other == before + [c];
    } else {
      DropLast(head, c, last);
      DropLast(before, c, other);
      EndSnoc(head + [c] + last[..i], last[i], before + [c] + other[..k], other[k]);
      LastParts(head, last[..i], c, before, other[..k]);
      assert last == last[..i] + [last[i]] && other == other[..k] + [other[k]];
    }
  }
}
