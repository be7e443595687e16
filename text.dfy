/** The JavaScript string operations the service relies on, over strings as
    sequences of characters: `trim`, the `/\s+/g` collapse, `split` on
    separator characters, `join`, `substring`, `startsWith`, `endsWith`,
    `includes` and an ASCII `toLowerCase`. */
module Text {
  import opened Common

  /** The characters that `\s` matches and that `trim` removes. */
  predicate IsSpace(c: char)
  {
    || c == ' ' || c == '\t' || c == '\n' || c == '\r'
    || c == '\U{0B}' || c == '\U{0C}' || c == '\U{A0}' || c == '\U{1680}'
    || ('\U{2000}' <= c <= '\U{200A}')
    || c == '\U{2028}' || c == '\U{2029}' || c == '\U{202F}' || c == '\U{205F}'
    || c == '\U{3000}' || c == '\U{FEFF}'
  }

  /** Every character is white space (so is the empty string). */
  predicate Blank(s: string)
  {
    forall i :: 0 <= i < |s| ==> IsSpace(s[i])
  }

  /** The number of white-space characters `s` starts with. */
  function LeadingSpaces(s: string): (n: nat)
    ensures n <= |s| && (n == |s| || !IsSpace(s[n]))
    ensures forall i :: 0 <= i < n ==> IsSpace(s[i])
  {
    if s != [] && IsSpace(s[0]) then
      var m := LeadingSpaces(s[1..]);
      assert forall i :: 1 <= i <= m ==> s[i] == s[1..][i - 1];
      1 + m
    else 0
  }

  /** The number of white-space characters `s` ends with. */
  function TrailingSpaces(s: string): (n: nat)
    ensures n <= |s| && (n == |s| || !IsSpace(s[|s| - 1 - n]))
    ensures forall i :: |s| - n <= i < |s| ==> IsSpace(s[i])
  {
    if s != [] && IsSpace(s[|s| - 1]) then
      var m := TrailingSpaces(s[..|s| - 1]);
      assert forall i :: |s| - 1 - m <= i < |s| - 1 ==> s[i] == s[..|s| - 1][i];
      1 + m
    else 0
  }

  /** `trimStart`: the text after the leading white space. */
  function TrimStart(s: string): (r: string)
    ensures |r| <= |s| && r == s[|s| - |r|..]
    ensures r == [] || !IsSpace(r[0])
    ensures Blank(s[..|s| - |r|])
    ensures r == [] <==> Blank(s)
    ensures s != [] && IsSpace(s[0]) ==> |r| < |s|
  {
    var n := LeadingSpaces(s);
    assert n < |s| ==> !Blank(s);
    s[n..]
  }

  /** `trimEnd`: the text before the trailing white space. */
  function TrimEnd(s: string): (r: string)
    ensures |r| <= |s| && r == s[..|r|]
    ensures r == [] || !IsSpace(r[|r| - 1])
    ensures Blank(s[|r|..])
    ensures r == [] <==> Blank(s)
  {
    var n := TrailingSpaces(s);
    assert n < |s| ==> !Blank(s);
    s[..|s| - n]
  }

  /** `String.prototype.trim`: the text between the leading and the
      trailing white space. */
  function Trim(s: string): (r: string)
    ensures var a := |s| - |TrimStart(s)|; a + |r| <= |s| && r == s[a..a + |r|]
    ensures var a := |s| - |TrimStart(s)|; Blank(s[..a]) && Blank(s[a + |r|..])
    ensures r == [] || (!IsSpace(r[0]) && !IsSpace(r[|r| - 1]))
    ensures r == [] <==> Blank(s)
  {
    var t := TrimStart(s);
    var r := TrimEnd(t);
    assert r == s[|s| - |t|..][..|r|] == s[|s| - |t|..|s| - |t| + |r|];
    assert t[|r|..] == s[|s| - |t| + |r|..];
    r
  }

  /** Some character is not white space: the strings the filters
      `x => x.trim()` and `x => x.trim().length > 0` keep (`TrimNonBlank`). */
  predicate NonBlank(s: string)
  {
    !Blank(s)
  }

  /** A string is non-blank exactly when its trimmed form is not empty. */
  lemma TrimNonBlank(s: string)
    ensures NonBlank(s) <==> |Trim(s)| > 0
  {
  }

  /** `s.replace(/\s+/g, ' ')`: every maximal run of white space becomes one
      space. */
  function Collapse(s: string): string
    decreases |s|
  {
    if s == [] then []
    else if IsSpace(s[0]) then
      [' '] + Collapse(TrimStart(s))
    else [s[0]] + Collapse(s[1..])
  }

  /** White space only as single spaces. */
  predicate SingleSpaced(s: string)
  {
    && (forall i :: 0 <= i < |s| && IsSpace(s[i]) ==> s[i] == ' ')
    && (forall i :: 0 <= i < |s| - 1 ==> !(s[i] == ' ' && s[i + 1] == ' '))
  }

  /** The collapse leaves only single spaces as white space, is empty only
      for the empty string, and starts with a space exactly when the string
      starts with white space. */
  lemma {:induction false} CollapseShape(s: string)
    ensures var r := Collapse(s);
      && SingleSpaced(r)
      && (r == [] <==> s == [])
      && (r != [] ==> (r[0] == ' ' <==> IsSpace(s[0])))
    decreases |s|
  {
    if s != [] {
      var r := Collapse(s);
      var rest := if IsSpace(s[0]) then TrimStart(s) else s[1..];
      CollapseShape(rest);
      var c := Collapse(rest);
      assert r == [r[0]] + c;
      assert forall i :: 0 <= i < |c| ==> r[i + 1] == c[i];
      if IsSpace(s[0]) {
        assert c == [] || c[0] != ' ';
      }
    }
  }

  predicate NotSpace(c: char)
  {
    !IsSpace(c)
  }

  /** The characters of `s` that are not white space, in order. */
  function Visible(s: string): string
  {
    Filter(s, NotSpace)
  }

  /** A blank string has no visible character. */
  lemma VisibleBlank(s: string)
    requires Blank(s)
    ensures Visible(s) == []
  {
    FilterEmpty(s, NotSpace);
  }

  /** Collapsing white space keeps the visible characters. */
  lemma {:induction false} VisibleCollapse(s: string)
    ensures Visible(Collapse(s)) == Visible(s)
    decreases |s|
  {
    if s != [] {
      if IsSpace(s[0]) {
        var t := TrimStart(s);
        VisibleCollapse(t);
        FilterAppend([' '], Collapse(t), NotSpace);
        assert s == s[..|s| - |t|] + t;
        VisibleBlank(s[..|s| - |t|]);
        FilterAppend(s[..|s| - |t|], t, NotSpace);
      } else {
        VisibleCollapse(s[1..]);
        FilterAppend([s[0]], Collapse(s[1..]), NotSpace);
        FilterAppend([s[0]], s[1..], NotSpace);
        assert s == [s[0]] + s[1..];
      }
    }
  }

  /** Trimming keeps the visible characters. */
  lemma VisibleTrim(s: string)
    ensures Visible(Trim(s)) == Visible(s)
  {
    var r := Trim(s);
    var a := |s| - |TrimStart(s)|;
    assert s == s[..a] + r + s[a + |r|..];
    VisibleBlank(s[..a]);
    VisibleBlank(s[a + |r|..]);
    FilterAppend(s[..a] + r, s[a + |r|..], NotSpace);
    FilterAppend(s[..a], r, NotSpace);
  }

  predicate HasAny(s: string, seps: set<char>)
  {
    exists i :: 0 <= i < |s| && s[i] in seps
  }

  /** Position of the first character of `s` that is in `seps`. */
  function FirstIn(s: string, seps: set<char>): (i: nat)
    requires HasAny(s, seps)
    ensures i < |s| && s[i] in seps
    ensures forall k :: 0 <= k < i ==> s[k] !in seps
  {
    if s[0] in seps then 0
    else
      assert HasAny(s[1..], seps) by {
        var k :| 0 <= k < |s| && s[k] in seps;
        assert s[1..][k - 1] == s[k];
      }
      1 + FirstIn(s[1..], seps)
  }

  /** `s.split(c)` for one separator character `c`, or `s.split(/[...]/)` for a
      character class: the pieces between separators, in order, empty ones
      included; there is always at least one piece. */
  function Split(s: string, seps: set<char>): (r: seq<string>)
    ensures |r| >= 1
    ensures forall k :: 0 <= k < |r| ==> !HasAny(r[k], seps)
    decreases |s|
  {
    if HasAny(s, seps) then
      var i := FirstIn(s, seps);
      [s[..i]] + Split(s[i + 1..], seps)
    else [s]
  }

  /** `s.split(c).filter(x => x.trim())`: the non-blank pieces between the
      separators, in order; every non-blank piece is kept. */
  function Tokens(s: string, c: char): (ts: seq<string>)
    ensures forall k :: 0 <= k < |ts| ==> NonBlank(ts[k]) && c !in ts[k] && ts[k] in Split(s, {c})
    ensures forall x :: x in Split(s, {c}) && NonBlank(x) ==> x in ts
  {
    var pieces := Split(s, {c});
    var ts := Filter(pieces, NonBlank);
    FilterComplete(pieces, NonBlank);
    assert forall k :: 0 <= k < |ts| ==> exists j :: 0 <= j < |pieces| && pieces[j] == ts[k];
    ts
  }

  /** The separator characters `Split(s, seps)` cut at, in order, each as a
      one-character string. */
  function SplitSeparators(s: string, seps: set<char>): (r: seq<string>)
    ensures |r| == |Split(s, seps)| - 1
    ensures forall k :: 0 <= k < |r| ==> |r[k]| == 1 && r[k][0] in seps
    decreases |s|
  {
    if HasAny(s, seps) then
      var i := FirstIn(s, seps);
      [[s[i]]] + SplitSeparators(s[i + 1..], seps)
    else []
  }

  /** The pieces with the separators put back between them:
      `parts[0] + seps[0] + parts[1] + ... + parts[n]`. */
  function Weave(parts: seq<string>, seps: seq<string>): string
    requires |parts| == |seps| + 1
    decreases |seps|
  {
    if seps == [] then parts[0] else parts[0] + seps[0] + Weave(parts[1..], seps[1..])
  }

  /** Splitting on a character class loses nothing: the pieces, with the
      separators that were cut at put back between them, give the string. */
  lemma {:induction false} SplitRebuild(s: string, seps: set<char>)
    ensures Weave(Split(s, seps), SplitSeparators(s, seps)) == s
    decreases |s|
  {
    if HasAny(s, seps) {
      var i := FirstIn(s, seps);
      var rest := s[i + 1..];
      var pieces, cuts := Split(s, seps), SplitSeparators(s, seps);
      assert pieces == [s[..i]] + Split(rest, seps);
      assert cuts == [[s[i]]] + SplitSeparators(rest, seps);
      SplitRebuild(rest, seps);
      assert Weave(pieces, cuts) == s[..i] + [s[i]] + Weave(Split(rest, seps), SplitSeparators(rest, seps)) by {
        assert pieces[1..] == Split(rest, seps);
        assert cuts[1..] == SplitSeparators(rest, seps);
      }
      Rejoin(s, i);
    }
  }

  /** A string is what comes before position `i`, the character there and
      what comes after. */
  lemma Rejoin(s: string, i: nat)
    requires i < |s|
    ensures s[..i] + [s[i]] + s[i + 1..] == s
  {
  }

  /** `parts.join(sep)`. */
  function Join(parts: seq<string>, sep: string): string
  {
    if |parts| == 0 then ""
    else if |parts| == 1 then parts[0]
    else parts[0] + sep + Join(parts[1..], sep)
  }

  /** `s.substring(0, n)` for `n >= 0`. */
  function Prefix(s: string, n: nat): (r: string)
    ensures |r| == Min(|s|, n) && r == s[..|r|]
  {
    if n <= |s| then s[..n] else s
  }

  /** `s.substring(n)` for `n >= 0`. */
  function Drop(s: string, n: nat): (r: string)
    ensures |r| == |s| - Min(|s|, n) && r == s[|s| - |r|..]
  {
    if n <= |s| then s[n..] else []
  }

  function Min(a: int, b: int): (m: int)
    ensures m <= a && m <= b && (m == a || m == b)
  {
    if a <= b then a else b
  }

  predicate StartsWith(s: string, p: string)
  {
    |p| <= |s| && s[..|p|] == p
  }

  predicate EndsWith(s: string, p: string)
  {
    |p| <= |s| && s[|s| - |p|..] == p
  }

  /** `s.includes(sub)`. */
  predicate Contains(s: string, sub: string)
    decreases |s|
  {
    StartsWith(s, sub) || (s != [] && Contains(s[1..], sub))
  }

  /** `toLowerCase` restricted to the ASCII letters. */
  function LowerAscii(s: string): (r: string)
    ensures |r| == |s|
    ensures forall i :: 0 <= i < |s| ==> r[i] == (if 'A' <= s[i] <= 'Z' then (s[i] as int + 32) as char else s[i])
  {
    if s == [] then []
    else [if 'A' <= s[0] <= 'Z' then (s[0] as int + 32) as char else s[0]] + LowerAscii(s[1..])
  }

  /** `s.split(' ').length`, the service's word count. */
  function WordCount(s: string): nat
  {
    |Split(s, {' '})|
  }

  /** Joining splits the string back together: `s.split(c).join(c) == s`. */
  lemma {:induction false} JoinSplit(s: string, c: char)
    ensures Join(Split(s, {c}), [c]) == s
    decreases |s|
  {
    if HasAny(s, {c}) {
      var i := FirstIn(s, {c});
      var rest := Split(s[i + 1..], {c});
      JoinSplit(s[i + 1..], c);
      assert Split(s, {c}) == [s[..i]] + rest;
      assert ([s[..i]] + rest)[1..] == rest;
      assert s == s[..i] + [c] + s[i + 1..];
    }
  }

  /** Splitting a join gives the parts back when no part holds the separator. */
  lemma {:induction false} SplitJoin(parts: seq<string>, c: char)
    requires |parts| >= 1
    requires forall k :: 0 <= k < |parts| ==> c !in parts[k]
    ensures Split(Join(parts, [c]), {c}) == parts
  {
    var p := parts[0];
    assert !HasAny(p, {c});
    if |parts| > 1 {
      var tail := Join(parts[1..], [c]);
      var s := p + [c] + tail;
      assert Join(parts, [c]) == s;
      assert s[|p|] == c;
      assert HasAny(s, {c});
      var i := FirstIn(s, {c});
      assert forall k :: 0 <= k < |p| ==> s[k] == p[k] && s[k] !in {c};
      assert i == |p|;
      assert s[..i] == p;
      assert s[i + 1..] == tail;
      SplitJoin(parts[1..], c);
      assert parts == [p] + parts[1..];
    }
  }

  /** Splitting on `c` a join on `c` followed by a space gives the parts back,
      every one after the first behind that space, when no part holds `c`. */
  lemma {:induction false} SplitSpacedJoin(parts: seq<string>, c: char)
    requires c != ' ' && parts != []
    requires forall k :: 0 <= k < |parts| ==> c !in parts[k]
    ensures var pieces := Split(Join(parts, [c, ' ']), {c});
      && |pieces| == |parts|
      && pieces[0] == parts[0]
      && forall k :: 1 <= k < |parts| ==> pieces[k] == " " + parts[k]
    decreases |parts|
  {
    var p := parts[0];
    assert !HasAny(p, {c});
    if |parts| > 1 {
      var rest := [" " + parts[1]] + parts[2..];
      assert forall k :: 1 <= k < |rest| ==> rest[k] == parts[k + 1];
      SplitSpacedJoin(rest, c);
      var tail := Split(Join(rest, [c, ' ']), {c});
      JoinShift(parts, c);
      SplitAround(p, c, Join(rest, [c, ' ']));
      var pieces := [p] + tail;
      forall k | 1 <= k < |parts|
        ensures pieces[k] == " " + parts[k]
      {
        assert pieces[k] == tail[k - 1];
      }
    }
  }

  /** A join on `c` and a space is the first part, `c`, and the join of the
      rest with that space moved onto the second part. */
  lemma JoinShift(parts: seq<string>, c: char)
    requires |parts| > 1
    ensures Join(parts, [c, ' ']) == parts[0] + [c] + Join([" " + parts[1]] + parts[2..], [c, ' '])
  {
    var sep := [c, ' '];
    var tail := Join(parts[1..], sep);
    assert parts[1..] == [parts[1]] + parts[2..];
    JoinSpaceFront(parts[1], parts[2..], sep);
    assert parts[0] + sep + tail == parts[0] + [c] + (" " + tail);
  }

  /** A space put before the first part comes first in the join. */
  lemma JoinSpaceFront(p: string, more: seq<string>, sep: string)
    ensures Join([" " + p] + more, sep) == " " + Join([p] + more, sep)
  {
    if more != [] {
      assert ([" " + p] + more)[1..] == more;
      assert ([p] + more)[1..] == more;
    }
  }

  /** `join` is associative over a concatenation of two non-empty lists. */
  lemma {:induction false} JoinAppend(a: seq<string>, b: seq<string>, sep: string)
    requires a != [] && b != []
    ensures Join(a + b, sep) == Join(a, sep) + sep + Join(b, sep)
  {
    if |a| == 1 {
      assert (a + b)[1..] == b;
    } else {
      assert (a + b)[1..] == a[1..] + b;
      JoinAppend(a[1..], b, sep);
    }
  }

  /** A join begins with its first part. */
  lemma {:induction false} JoinStartsWithFirst(parts: seq<string>, sep: string)
    requires parts != []
    ensures StartsWith(Join(parts, sep), parts[0])
  {
  }

  /** A separator between two strings splits them apart:
      `(x + c + y).split(c)` is `x.split(c)` followed by `y.split(c)`. */
  lemma {:induction false} SplitAround(x: string, c: char, y: string)
    ensures Split(x + [c] + y, {c}) == Split(x, {c}) + Split(y, {c})
    decreases |x|
  {
    var s := x + [c] + y;
    if HasAny(x, {c}) {
      var j := FirstIn(x, {c});
      assert forall k :: 0 <= k <= j ==> s[k] == x[k];
      FirstInAt(s, {c}, j);
      assert s[..j] == x[..j];
      assert s[j + 1..] == x[j + 1..] + [c] + y;
      SplitAround(x[j + 1..], c, y);
      assert Split(s, {c}) == [x[..j]] + (Split(x[j + 1..], {c}) + Split(y, {c}));
      assert Split(x, {c}) == [x[..j]] + Split(x[j + 1..], {c});
    } else {
      assert forall k :: 0 <= k < |x| ==> s[k] == x[k] && s[k] !in {c};
      FirstInAt(s, {c}, |x|);
      assert s[..|x|] == x;
      assert s[|x| + 1..] == y;
    }
  }

  /** A position holding a separator with none before it is the first. */
  lemma FirstInAt(s: string, seps: set<char>, i: nat)
    requires i < |s| && s[i] in seps
    requires forall k :: 0 <= k < i ==> s[k] !in seps
    ensures HasAny(s, seps) && FirstIn(s, seps) == i
  {
  }

  /** Appending a character other than the separator adds no piece. */
  lemma {:induction false} SplitAppendOther(x: string, d: char, c: char)
    requires d != c
    ensures |Split(x + [d], {c})| == |Split(x, {c})|
    decreases |x|
  {
    var s := x + [d];
    if HasAny(x, {c}) {
      var j := FirstIn(x, {c});
      assert forall k :: 0 <= k <= j ==> s[k] == x[k];
      assert HasAny(s, {c});
      assert FirstIn(s, {c}) == j;
      assert s[j + 1..] == x[j + 1..] + [d];
      SplitAppendOther(x[j + 1..], d, c);
    } else {
      assert forall k :: 0 <= k < |s| ==> s[k] !in {c};
    }
  }

  /** `(a + '. ' + t).split(' ').length` counts the words of `a` and of `t`. */
  lemma WordCountAfterSentence(a: string, t: string)
    ensures WordCount(a + ". " + t) == WordCount(a) + WordCount(t)
  {
    assert a + ". " + t == (a + ['.']) + [' '] + t;
    SplitAround(a + ['.'], ' ', t);
    SplitAppendOther(a, '.', ' ');
  }

  /** A concatenation begins with its first part and ends with its second. */
  lemma ConcatEnds(a: string, b: string)
    ensures StartsWith(a + b, a) && EndsWith(a + b, b)
  {
    assert (a + b)[..|a|] == a;
    assert (a + b)[|a + b| - |b|..] == b;
  }
}
