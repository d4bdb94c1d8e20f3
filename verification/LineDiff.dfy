/**
  The viewers' line diff (web/app/static/linediff.js): a longest-common-subsequence table walked
  greedily into rows, numbered, counted, and grouped into visible runs and folds.
 */
module LineDiff {
  import opened Common

  datatype Tag = Same | Plus | Minus

  datatype Row = Row(tag: Tag, text: string)

  /** A row with its 1-based line number on the old side (a) and the new side (b). */
  datatype Numbered = Numbered(tag: Tag, text: string, a: Option<nat>, b: Option<nat>)

  // ----------------------------------------------------------------------------------------------
  // Lines
  // ----------------------------------------------------------------------------------------------

  /** split('\n'): a text always has at least one line. */
  function Split(s: string): (lines: seq<string>)
    ensures |lines| >= 1
  {
    if s == "" then [""]
    else
      var rest := Split(s[1..]);
      if s[0] == '\n' then [""] + rest else [[s[0]] + rest[0]] + rest[1..]
  }

  /** join('\n'). */
  function Join(lines: seq<string>): string {
    if lines == [] then ""
    else if |lines| == 1 then lines[0]
    else lines[0] + "\n" + Join(lines[1..])
  }

  lemma {:induction false} JoinSplit(s: string)
    ensures Join(Split(s)) == s
  {
    if s != "" {
      JoinSplit(s[1..]);
      var rest := Split(s[1..]);
      if s[0] == '\n' {
        assert Split(s)[1..] == rest;
      } else {
        assert Split(s)[1..] == rest[1..];
      }
    }
  }

  /** And it is the only way to cut the text at its line breaks. */
  lemma {:induction false} SplitIsTheOnly(s: string, lines: seq<string>)
    ensures Split(s) == lines <==> lines != [] && Join(lines) == s && forall k :: 0 <= k < |lines| ==> '\n' !in lines[k]
  {
    JoinSplit(s);
    NoBreaks(s);
    if lines != [] && Join(lines) == s && forall k :: 0 <= k < |lines| ==> '\n' !in lines[k] {
      SameLines(Split(s), lines);
    }
  }

  lemma {:induction false} NoBreaks(s: string)
    ensures forall k :: 0 <= k < |Split(s)| ==> '\n' !in Split(s)[k]
  {
    if s != "" {
      NoBreaks(s[1..]);
    }
  }

  lemma {:induction false} SameLines(a: seq<string>, b: seq<string>)
    requires a != [] && b != [] && Join(a) == Join(b)
    requires (forall k :: 0 <= k < |a| ==> '\n' !in a[k]) && (forall k :: 0 <= k < |b| ==> '\n' !in b[k])
    ensures a == b
  {
    FirstBreak(a);
    FirstBreak(b);
    assert a == [a[0]] + a[1..] && b == [b[0]] + b[1..];
    var s := Join(a);
    if |a| == 1 || |b| == 1 {
      assert '\n' !in s <==> |a| == 1;
      assert '\n' !in s <==> |b| == 1;
    } else {
      assert |a[0]| == |b[0]|;
      assert a[0] == s[..|a[0]|] && b[0] == s[..|a[0]|];
      assert Join(a[1..]) == s[|a[0]| + 1..] == Join(b[1..]);
      SameLines(a[1..], b[1..]);
    }
  }

  /** Where the first line of a joined text ends. */
  lemma FirstBreak(a: seq<string>)
    requires a != [] && '\n' !in a[0]
    ensures var s := Join(a);
            if |a| == 1 then s == a[0]
            else |s| > |a[0]| && s[|a[0]|] == '\n' && (forall k :: 0 <= k < |a[0]| ==> s[k] == a[0][k] && s[k] != '\n')
                 && s[|a[0]| + 1..] == Join(a[1..])
  {
    if |a| > 1 {
      assert forall k :: 0 <= k < |a[0]| ==> Join(a)[k] == a[0][k];
    }
  }

  // ----------------------------------------------------------------------------------------------
  // Edit scripts and longest common subsequences
  // ----------------------------------------------------------------------------------------------

  /** The side a script starts from: its rows without the additions. */
  function Old(rows: seq<Row>): seq<string> {
    if rows == [] then [] else (if rows[0].tag == Plus then [] else [rows[0].text]) + Old(rows[1..])
  }

  /** The side a script arrives at: its rows without the removals. */
  function New(rows: seq<Row>): seq<string> {
    if rows == [] then [] else (if rows[0].tag == Minus then [] else [rows[0].text]) + New(rows[1..])
  }

  function Kept(rows: seq<Row>): seq<string> {
    if rows == [] then [] else (if rows[0].tag == Same then [rows[0].text] else []) + Kept(rows[1..])
  }

  function Changes(rows: seq<Row>): nat {
    if rows == [] then 0 else (if rows[0].tag == Same then 0 else 1) + Changes(rows[1..])
  }

  function Max(x: int, y: int): int { if x >= y then x else y }

  /** The length of a longest common subsequence. */
  function Lcs(a: seq<string>, b: seq<string>): nat {
    if a == [] || b == [] then 0
    else if a[0] == b[0] then Lcs(a[1..], b[1..]) + 1
    else Max(Lcs(a[1..], b), Lcs(a, b[1..]))
  }

  /** c can be read off a, in order. */
  predicate IsSubsequence(c: seq<string>, a: seq<string>) {
    c == [] || (a != [] && ((c[0] == a[0] && IsSubsequence(c[1..], a[1..])) || IsSubsequence(c, a[1..])))
  }

  /** Dropping the first line of either side costs at most one, and never gains. */
  lemma {:induction false} LcsDrop(a: seq<string>, b: seq<string>)
    ensures a != [] ==> Lcs(a[1..], b) <= Lcs(a, b) <= Lcs(a[1..], b) + 1
    ensures b != [] ==> Lcs(a, b[1..]) <= Lcs(a, b) <= Lcs(a, b[1..]) + 1
    decreases |a| + |b|
  {
    if a != [] && b != [] {
      LcsDrop(a[1..], b);
      LcsDrop(a, b[1..]);
      LcsDrop(a[1..], b[1..]);
    }
  }

  /** Lcs bounds every common subsequence. */
  lemma {:induction false} LcsIsUpperBound(c: seq<string>, a: seq<string>, b: seq<string>)
    requires IsSubsequence(c, a) && IsSubsequence(c, b)
    ensures |c| <= Lcs(a, b)
    decreases |a| + |b|
  {
    if c != [] {
      LcsDrop(a, b);
      if !(c[0] == a[0] && IsSubsequence(c[1..], a[1..])) {
        LcsIsUpperBound(c, a[1..], b);
      } else if !(c[0] == b[0] && IsSubsequence(c[1..], b[1..])) {
        LcsIsUpperBound(c, a, b[1..]);
      } else {
        LcsIsUpperBound(c[1..], a[1..], b[1..]);
      }
    }
  }

  /** What a script keeps is a common subsequence of its two sides, and every line is counted. */
  lemma {:induction false} ScriptAccounts(rows: seq<Row>)
    ensures IsSubsequence(Kept(rows), Old(rows)) && IsSubsequence(Kept(rows), New(rows))
    ensures |Old(rows)| + |New(rows)| == Changes(rows) + 2 * |Kept(rows)|
  {
    if rows != [] {
      ScriptAccounts(rows[1..]);
      var o, n := Old(rows[1..]), New(rows[1..]);
      match rows[0].tag
      case Same =>
        assert Old(rows)[1..] == o && New(rows)[1..] == n && Kept(rows)[1..] == Kept(rows[1..]);
      case Plus =>
        assert New(rows)[1..] == n && Old(rows) == o && Kept(rows) == Kept(rows[1..]);
      case Minus =>
        assert Old(rows)[1..] == o && New(rows) == n && Kept(rows) == Kept(rows[1..]);
    }
  }

  // ----------------------------------------------------------------------------------------------
  // lineDiff
  // ----------------------------------------------------------------------------------------------

  /** The greedy walk from (i, j): keep a match, otherwise follow the longer remainder, and remove
      before adding on a tie. */
  function Walk(a: seq<string>, b: seq<string>, i: nat, j: nat): seq<Row>
    requires i <= |a| && j <= |b|
    decreases |a| - i + |b| - j
  {
    if i < |a| && j < |b| then
      if a[i] == b[j] then [Row(Same, a[i])] + Walk(a, b, i + 1, j + 1)
      else if Lcs(a[i + 1..], b[j..]) >= Lcs(a[i..], b[j + 1..]) then [Row(Minus, a[i])] + Walk(a, b, i + 1, j)
      else [Row(Plus, b[j])] + Walk(a, b, i, j + 1)
    else if i < |a| then [Row(Minus, a[i])] + Walk(a, b, i + 1, j)
    else if j < |b| then [Row(Plus, b[j])] + Walk(a, b, i, j + 1)
    else []
  }

  /** What the walk does from (i, j): consume a line of a, of b, or of both. */
  lemma WalkHead(a: seq<string>, b: seq<string>, i: nat, j: nat) returns (r: Row, i': nat, j': nat)
    requires i <= |a| && j <= |b| && (i < |a| || j < |b|)
    ensures i <= i' <= |a| && j <= j' <= |b| && (i < i' || j < j') && i' <= i + 1 && j' <= j + 1
    ensures Walk(a, b, i, j) == [r] + Walk(a, b, i', j')
    ensures i' == i + 1 <==> r.tag != Plus
    ensures j' == j + 1 <==> r.tag != Minus
    ensures r.tag != Plus ==> r.text == a[i]
    ensures r.tag != Minus ==> r.text == b[j]
    ensures Lcs(a[i..], b[j..]) == Lcs(a[i'..], b[j'..]) + (if r.tag == Same then 1 else 0)
  {
    r := Walk(a, b, i, j)[0];
    i', j' := if r.tag == Plus then i else i + 1, if r.tag == Minus then j else j + 1;
    assert i < |a| ==> a[i..][1..] == a[i + 1..];
    assert j < |b| ==> b[j..][1..] == b[j + 1..];
  }

  lemma RowSides(r: Row, rest: seq<Row>)
    ensures Old([r] + rest) == (if r.tag == Plus then [] else [r.text]) + Old(rest)
    ensures New([r] + rest) == (if r.tag == Minus then [] else [r.text]) + New(rest)
    ensures Kept([r] + rest) == (if r.tag == Same then [r.text] else []) + Kept(rest)
  {
    assert ([r] + rest)[1..] == rest;
  }

  lemma {:induction false} WalkTurnsAIntoB(a: seq<string>, b: seq<string>, i: nat, j: nat)
    requires i <= |a| && j <= |b|
    ensures Old(Walk(a, b, i, j)) == a[i..] && New(Walk(a, b, i, j)) == b[j..]
    ensures |Kept(Walk(a, b, i, j))| == Lcs(a[i..], b[j..])
    decreases |a| - i + |b| - j
  {
    if i < |a| || j < |b| {
      var r, i', j' := WalkHead(a, b, i, j);
      WalkTurnsAIntoB(a, b, i', j');
      RowSides(r, Walk(a, b, i', j'));
      assert a[i..] == (if i' == i then [] else [a[i]]) + a[i'..];
      assert b[j..] == (if j' == j then [] else [b[j]]) + b[j'..];
    }
  }

  /** No script between the same two texts has fewer changed rows, and no common subsequence of them
      is longer than what the walk keeps. */
  lemma WalkIsOptimal(a: seq<string>, b: seq<string>, other: seq<Row>, c: seq<string>)
    ensures Old(other) == a && New(other) == b ==> Changes(Walk(a, b, 0, 0)) <= Changes(other)
    ensures IsSubsequence(c, a) && IsSubsequence(c, b) ==> |c| <= |Kept(Walk(a, b, 0, 0))|
  {
    var w := Walk(a, b, 0, 0);
    WalkTurnsAIntoB(a, b, 0, 0);
    assert a[0..] == a && b[0..] == b;
    ScriptAccounts(w);
    if Old(other) == a && New(other) == b {
      ScriptAccounts(other);
      LcsIsUpperBound(Kept(other), a, b);
    }
    if IsSubsequence(c, a) && IsSubsequence(c, b) {
      LcsIsUpperBound(c, a, b);
    }
  }

  /** Keeping a line comes before removing one, and that before adding one. */
  function Rank(t: Tag): nat {
    match t case Same => 0 case Minus => 1 case Plus => 2
  }

  /** Where the two scripts first differ, x has the tag that comes first. */
  predicate First(x: seq<Row>, y: seq<Row>) {
    x == y || (x != [] && y != [] && (Rank(x[0].tag) < Rank(y[0].tag) || (x[0] == y[0] && First(x[1..], y[1..]))))
  }

  /** A script between the two texts with as few changed rows as possible. */
  ghost predicate Shortest(w: seq<Row>, a: seq<string>, b: seq<string>) {
    && Old(w) == a && New(w) == b
    && forall other :: Old(other) == a && New(other) == b ==> Changes(w) <= Changes(other)
  }

  /** Which of the shortest scripts it is: the first of them, row by row, where keeping a line comes before
      removing one and removing before adding.  So there is exactly one such script, and it is the walk. */
  lemma WalkIsFirst(a: seq<string>, b: seq<string>, other: seq<Row>)
    requires Shortest(other, a, b)
    ensures Shortest(Walk(a, b, 0, 0), a, b) && First(Walk(a, b, 0, 0), other)
  {
    var w := Walk(a, b, 0, 0);
    WalkTurnsAIntoB(a, b, 0, 0);
    assert a[0..] == a && b[0..] == b;
    forall x | Old(x) == a && New(x) == b
      ensures Changes(w) <= Changes(x)
    {
      WalkIsOptimal(a, b, x, []);
    }
    ScriptAccounts(w);
    ScriptAccounts(other);
    FirstFrom(a, b, 0, 0, other);
  }

  lemma {:induction false} FirstFrom(a: seq<string>, b: seq<string>, i: nat, j: nat, other: seq<Row>)
    requires i <= |a| && j <= |b| && Old(other) == a[i..] && New(other) == b[j..] && |Kept(other)| == Lcs(a[i..], b[j..])
    ensures First(Walk(a, b, i, j), other)
    decreases |other|
  {
    if other != [] {
      var rest := other[1..];
      assert other == [other[0]] + rest;
      RowSides(other[0], rest);
      assert other[0].tag != Plus ==> i < |a| && a[i] == other[0].text && a[i..][1..] == a[i + 1..];
      assert other[0].tag != Minus ==> j < |b| && b[j] == other[0].text && b[j..][1..] == b[j + 1..];
      var r, i', j' := WalkHead(a, b, i, j);
      if other[0] == r {
        FirstFrom(a, b, i', j', rest);
        assert Walk(a, b, i, j)[1..] == Walk(a, b, i', j');
      } else {
        FirstDiffers(a, b, i, j, other);
      }
    }
  }

  lemma FirstDiffers(a: seq<string>, b: seq<string>, i: nat, j: nat, other: seq<Row>)
    requires i <= |a| && j <= |b| && Old(other) == a[i..] && New(other) == b[j..] && |Kept(other)| == Lcs(a[i..], b[j..])
    requires other != [] && Walk(a, b, i, j) != [] && other[0] != Walk(a, b, i, j)[0]
    ensures Rank(Walk(a, b, i, j)[0].tag) < Rank(other[0].tag)
  {
    assert other == [other[0]] + other[1..];
    RowSides(other[0], other[1..]);
    assert other[0].tag != Plus ==> i < |a| && other[0].text == a[i];
    assert other[0].tag != Minus ==> j < |b| && other[0].text == b[j];
    if other[0].tag == Minus {
      RemovalKeeps(a[i..], b[j..], other);
      assert a[i..][1..] == a[i + 1..];
      LcsDrop(a[i..], b[j..]);
      assert j < |b| ==> b[j..][1..] == b[j + 1..];
    }
  }

  /** A script that starts with a removal and keeps as much as can be kept loses nothing by it. */
  lemma RemovalKeeps(x: seq<string>, y: seq<string>, other: seq<Row>)
    requires other != [] && other[0].tag == Minus && Old(other) == x && New(other) == y && |Kept(other)| == Lcs(x, y)
    ensures x != [] && Lcs(x[1..], y) == Lcs(x, y)
  {
    assert other == [other[0]] + other[1..];
    RowSides(other[0], other[1..]);
    ScriptAccounts(other[1..]);
    assert Old(other[1..]) == x[1..] && New(other[1..]) == y;
    LcsIsUpperBound(Kept(other[1..]), x[1..], y);
    LcsDrop(x, y);
  }

  /** In particular no added line stands directly before a removed one. */
  lemma {:induction false} RemovalsComeFirst(a: seq<string>, b: seq<string>, i: nat, j: nat, k: nat)
    requires i <= |a| && j <= |b| && k + 1 < |Walk(a, b, i, j)|
    ensures !(Walk(a, b, i, j)[k].tag == Plus && Walk(a, b, i, j)[k + 1].tag == Minus)
    decreases k
  {
    var r, i', j' := WalkHead(a, b, i, j);
    if k > 0 {
      RemovalsComeFirst(a, b, i', j', k - 1);
    } else if r.tag == Plus {
      if i < |a| {
        LcsDrop(a[i + 1..], b[j..]);
        assert b[j..][1..] == b[j + 1..];
      }
      var r2, i2, j2 := WalkHead(a, b, i', j');
    }
  }

  /** The table's values never exceed the number of lines on either side, so Int32Array entries
      hold them without wrapping for any text a browser can hold. */
  lemma {:induction false} LcsFits(a: seq<string>, b: seq<string>)
    ensures Lcs(a, b) <= |a| && Lcs(a, b) <= |b|
    decreases |a| + |b|
  {
    if a != [] && b != [] {
      LcsFits(a[1..], b[1..]);
      LcsFits(a[1..], b);
      LcsFits(a, b[1..]);
    }
  }

  /** What the table holds at [i, j]. */
  function SuffixLcs(a: seq<string>, b: seq<string>, i: nat, j: nat): nat
    requires i <= |a| && j <= |b|
  {
    Lcs(a[i..], b[j..])
  }

  lemma SuffixLcsStep(a: seq<string>, b: seq<string>, i: nat, j: nat)
    requires i < |a| && j < |b|
    ensures SuffixLcs(a, b, i, j) == if a[i] == b[j] then SuffixLcs(a, b, i + 1, j + 1) + 1
                                     else Max(SuffixLcs(a, b, i + 1, j), SuffixLcs(a, b, i, j + 1))
  {
    assert a[i..][1..] == a[i + 1..] && b[j..][1..] == b[j + 1..];
  }

  /** The table: filled from the bottom right, each entry from its three neighbours. */
  method FillTable(a: seq<string>, b: seq<string>) returns (dp: array2<int>)
    ensures fresh(dp) && dp.Length0 == |a| + 1 && dp.Length1 == |b| + 1
    ensures forall i, j :: 0 <= i <= |a| && 0 <= j <= |b| ==> dp[i, j] == SuffixLcs(a, b, i, j)
  {
    var n, m := |a|, |b|;
    dp := new int[n + 1, m + 1]((_, _) => 0);
    var i := n - 1;
    while i >= 0
      invariant -1 <= i <= n - 1
      invariant forall i', j' :: i < i' <= n && 0 <= j' <= m ==> dp[i', j'] == SuffixLcs(a, b, i', j')
      invariant forall i' :: 0 <= i' <= n ==> dp[i', m] == SuffixLcs(a, b, i', m)
    {
      var j := m - 1;
      while j >= 0
        invariant -1 <= j <= m - 1
        invariant forall i', j' :: i < i' <= n && 0 <= j' <= m ==> dp[i', j'] == SuffixLcs(a, b, i', j')
        invariant forall i' :: 0 <= i' <= n ==> dp[i', m] == SuffixLcs(a, b, i', m)
        invariant forall j' :: j < j' <= m ==> dp[i, j'] == SuffixLcs(a, b, i, j')
      {
        SuffixLcsStep(a, b, i, j);
        dp[i, j] := if a[i] == b[j] then dp[i + 1, j + 1] + 1 else Max(dp[i + 1, j], dp[i, j + 1]);
        j := j - 1;
      }
      i := i - 1;
    }
  }

  /** lineDiff: the rows rebuild both texts, no script has fewer changed rows, and there are changed
      rows exactly when the texts differ. */
  method LineDiff(aText: string, bText: string) returns (out: seq<Row>)
    ensures out == Walk(Split(aText), Split(bText), 0, 0)
    ensures Join(Old(out)) == aText && Join(New(out)) == bText
    ensures forall other :: Old(other) == Split(aText) && New(other) == Split(bText) ==> Changes(out) <= Changes(other)
    ensures Changes(out) == 0 <==> aText == bText
  {
    out := WalkTable(Split(aText), Split(bText));
    DiffFacts(aText, bText);
  }

  /** The three index-walking loops of lineDiff. */
  method WalkTable(a: seq<string>, b: seq<string>) returns (out: seq<Row>)
    ensures out == Walk(a, b, 0, 0)
  {
    var n, m := |a|, |b|;
    var dp := FillTable(a, b);
    out := [];
    var i, j := 0, 0;
    ghost var all := Walk(a, b, 0, 0);
    while i < n && j < m
      invariant 0 <= i <= n && 0 <= j <= m
      invariant all == out + Walk(a, b, i, j)
      decreases n - i + m - j
      modifies {}
    {
      Regroup(out, Walk(a, b, i, j));
      assert dp[i + 1, j] == SuffixLcs(a, b, i + 1, j) && dp[i, j + 1] == SuffixLcs(a, b, i, j + 1);
      if a[i] == b[j] {
        out := out + [Row(Same, a[i])];
        i, j := i + 1, j + 1;
      } else if dp[i + 1, j] >= dp[i, j + 1] {
        out := out + [Row(Minus, a[i])];
        i := i + 1;
      } else {
        out := out + [Row(Plus, b[j])];
        j := j + 1;
      }
    }
    while i < n
      invariant 0 <= i <= n && (i < n ==> j == m) && j <= m
      invariant all == out + Walk(a, b, i, j)
    {
      Regroup(out, Walk(a, b, i, j));
      out := out + [Row(Minus, a[i])];
      i := i + 1;
    }
    while j < m
      invariant i == n && 0 <= j <= m
      invariant all == out + Walk(a, b, i, j)
    {
      Regroup(out, Walk(a, b, i, j));
      out := out + [Row(Plus, b[j])];
      j := j + 1;
    }
  }

  lemma Regroup(out: seq<Row>, w: seq<Row>)
    requires w != []
    ensures out + w == (out + [w[0]]) + w[1..]
  {
  }

  lemma DiffFacts(aText: string, bText: string)
    ensures var w := Walk(Split(aText), Split(bText), 0, 0);
            && Join(Old(w)) == aText && Join(New(w)) == bText
            && (forall other :: Old(other) == Split(aText) && New(other) == Split(bText) ==> Changes(w) <= Changes(other))
            && (Changes(w) == 0 <==> aText == bText)
  {
    var a, b := Split(aText), Split(bText);
    var w := Walk(a, b, 0, 0);
    WalkTurnsAIntoB(a, b, 0, 0);
    assert a[0..] == a && b[0..] == b;
    JoinSplit(aText);
    JoinSplit(bText);
    forall other | Old(other) == a && New(other) == b
      ensures Changes(w) <= Changes(other)
    {
      WalkIsOptimal(a, b, other, []);
    }
    if Changes(w) == 0 {
      Unchanged(w);
    }
    if aText == bText {
      var same := seq(|a|, k requires 0 <= k < |a| => Row(Same, a[k]));
      AllSame(a, same);
    }
  }

  lemma {:induction false} Unchanged(rows: seq<Row>)
    requires Changes(rows) == 0
    ensures Old(rows) == New(rows)
  {
    if rows != [] {
      Unchanged(rows[1..]);
    }
  }

  lemma {:induction false} AllSame(a: seq<string>, rows: seq<Row>)
    requires |rows| == |a| && forall k :: 0 <= k < |a| ==> rows[k] == Row(Same, a[k])
    ensures Old(rows) == a && New(rows) == a && Changes(rows) == 0
  {
    if a != [] {
      AllSame(a[1..], rows[1..]);
    }
  }

  // ----------------------------------------------------------------------------------------------
  // numberRows and counts
  // ----------------------------------------------------------------------------------------------

  /** The line numbers a side shows, top to bottom. */
  function OldNumbers(rows: seq<Numbered>): seq<nat> {
    if rows == [] then []
    else OldNumbers(rows[..|rows| - 1]) + (if rows[|rows| - 1].a.Some? then [rows[|rows| - 1].a.value] else [])
  }

  function NewNumbers(rows: seq<Numbered>): seq<nat> {
    if rows == [] then []
    else NewNumbers(rows[..|rows| - 1]) + (if rows[|rows| - 1].b.Some? then [rows[|rows| - 1].b.value] else [])
  }

  /** 1, 2, ..., n. */
  function UpTo(n: nat): seq<nat> {
    seq(n, k => k + 1)
  }

  lemma {:induction false} OldAppend(rows: seq<Row>, r: Row)
    ensures Old(rows + [r]) == Old(rows) + (if r.tag == Plus then [] else [r.text])
  {
    if rows == [] {
      assert [r][1..] == [];
    } else {
      OldAppend(rows[1..], r);
      assert (rows + [r])[1..] == rows[1..] + [r];
    }
  }

  lemma {:induction false} NewAppend(rows: seq<Row>, r: Row)
    ensures New(rows + [r]) == New(rows) + (if r.tag == Minus then [] else [r.text])
  {
    if rows == [] {
      assert [r][1..] == [];
    } else {
      NewAppend(rows[1..], r);
      assert (rows + [r])[1..] == rows[1..] + [r];
    }
  }

  lemma {:induction false} ChangesAppend(rows: seq<Row>, r: Row)
    ensures Changes(rows + [r]) == Changes(rows) + (if r.tag == Same then 0 else 1)
  {
    if rows == [] {
      assert [r][1..] == [];
    } else {
      ChangesAppend(rows[1..], r);
      assert (rows + [r])[1..] == rows[1..] + [r];
    }
  }

  lemma OldNew(rows: seq<Row>, r: Row)
    ensures Old(rows + [r]) == Old(rows) + (if r.tag == Plus then [] else [r.text])
    ensures New(rows + [r]) == New(rows) + (if r.tag == Minus then [] else [r.text])
    ensures Changes(rows + [r]) == Changes(rows) + (if r.tag == Same then 0 else 1)
  {
    OldAppend(rows, r);
    NewAppend(rows, r);
    ChangesAppend(rows, r);
  }

  /** Row k keeps its tag and text; if it is numbered i on a side then it carries line i of that side. */
  predicate NumberedRight(r: Row, out: Numbered, oldSide: seq<string>, newSide: seq<string>) {
    && out.tag == r.tag && out.text == r.text
    && (out.a.Some? <==> r.tag != Plus)
    && (out.b.Some? <==> r.tag != Minus)
    && (out.a.Some? ==> 1 <= out.a.value <= |oldSide| && oldSide[out.a.value - 1] == r.text)
    && (out.b.Some? ==> 1 <= out.b.value <= |newSide| && newSide[out.b.value - 1] == r.text)
  }

  predicate AllRight(rows: seq<Row>, out: seq<Numbered>, oldSide: seq<string>, newSide: seq<string>) {
    |out| <= |rows| && forall k :: 0 <= k < |out| ==> NumberedRight(rows[k], out[k], oldSide, newSide)
  }

  lemma RightGrow(rows: seq<Row>, out: seq<Numbered>, row: Numbered, oldSide: seq<string>, newSide: seq<string>)
    requires AllRight(rows, out, oldSide, newSide) && |out| < |rows| && NumberedRight(rows[|out|], row, oldSide, newSide)
    ensures AllRight(rows, out + [row], oldSide, newSide)
  {
  }

  lemma {:induction false} PrefixSides(rows: seq<Row>, k: nat)
    requires k <= |rows|
    ensures Old(rows[..k]) <= Old(rows) && New(rows[..k]) <= New(rows)
    decreases |rows| - k
  {
    if k == |rows| {
      assert rows[..k] == rows;
    } else {
      PrefixSides(rows, k + 1);
      OldNew(rows[..k], rows[k]);
      assert rows[..k + 1] == rows[..k] + [rows[k]];
    }
  }

  /** numberRows: every number names the line it is shown against, and each side is numbered 1, 2, ...
      to its last line. */
  method NumberRows(rows: seq<Row>) returns (out: seq<Numbered>)
    ensures |out| == |rows|
    ensures AllRight(rows, out, Old(rows), New(rows))
    ensures OldNumbers(out) == UpTo(|Old(rows)|) && NewNumbers(out) == UpTo(|New(rows)|)
  {
    var oa, ob := 0, 0;
    out := [];
    ghost var oldSide, newSide := Old(rows), New(rows);
    for idx := 0 to |rows|
      invariant |out| == idx
      invariant oa == |Old(rows[..idx])| && ob == |New(rows[..idx])|
      invariant AllRight(rows, out, oldSide, newSide)
      invariant OldNumbers(out) == UpTo(oa) && NewNumbers(out) == UpTo(ob)
    {
      var r := rows[idx];
      NextLine(rows, idx);
      var row: Numbered;
      if r.tag == Minus {
        oa := oa + 1;
        row := Numbered(r.tag, r.text, Some(oa), None);
      } else if r.tag == Plus {
        ob := ob + 1;
        row := Numbered(r.tag, r.text, None, Some(ob));
      } else {
        oa, ob := oa + 1, ob + 1;
        row := Numbered(Same, r.text, Some(oa), Some(ob));
      }
      NumbersGrow(out, row, oa, ob);
      RightGrow(rows, out, row, oldSide, newSide);
      out := out + [row];
    }
    assert rows[..|rows|] == rows;
  }

  lemma NumbersGrow(before: seq<Numbered>, r: Numbered, oa: nat, ob: nat)
    requires r.a.Some? ==> oa > 0 && r.a.value == oa && OldNumbers(before) == UpTo(oa - 1)
    requires r.b.Some? ==> ob > 0 && r.b.value == ob && NewNumbers(before) == UpTo(ob - 1)
    ensures OldNumbers(before + [r]) == (if r.a.Some? then UpTo(oa) else OldNumbers(before))
    ensures NewNumbers(before + [r]) == (if r.b.Some? then UpTo(ob) else NewNumbers(before))
  {
    assert (before + [r])[..|before|] == before;
  }

  /** Row idx carries, on each side it is on, the line that comes next there. */
  lemma NextLine(rows: seq<Row>, idx: nat)
    requires idx < |rows|
    ensures var o, n := |Old(rows[..idx])|, |New(rows[..idx])|;
            && (if rows[idx].tag == Plus then |Old(rows[..idx + 1])| == o
                else |Old(rows[..idx + 1])| == o + 1 && o < |Old(rows)| && Old(rows)[o] == rows[idx].text)
            && (if rows[idx].tag == Minus then |New(rows[..idx + 1])| == n
                else |New(rows[..idx + 1])| == n + 1 && n < |New(rows)| && New(rows)[n] == rows[idx].text)
  {
    OldNew(rows[..idx], rows[idx]);
    assert rows[..idx + 1] == rows[..idx] + [rows[idx]];
    PrefixSides(rows, idx + 1);
  }

  /** counts: the two tallies differ from the sides' lengths by the same number of kept rows. */
  method Counts(rows: seq<Row>) returns (add: nat, del: nat, changed: nat)
    ensures add == |New(rows)| - |Kept(rows)| && del == |Old(rows)| - |Kept(rows)|
    ensures changed == Changes(rows) == add + del
  {
    add, del := 0, 0;
    for idx := 0 to |rows|
      invariant add + del == Changes(rows[..idx])
      invariant add - del == |New(rows[..idx])| - |Old(rows[..idx])|
    {
      OldNew(rows[..idx], rows[idx]);
      assert rows[..idx + 1] == rows[..idx] + [rows[idx]];
      if rows[idx].tag == Plus {
        add := add + 1;
      } else if rows[idx].tag == Minus {
        del := del + 1;
      }
    }
    assert rows[..|rows|] == rows;
    ScriptAccounts(rows);
    changed := add + del;
  }

  // ----------------------------------------------------------------------------------------------
  // hunkify
  // ----------------------------------------------------------------------------------------------

  const CONTEXT := 3
  const MIN_GAP := 3

  datatype Segment = Segment(vis: bool, rows: seq<Numbered>)

  /** Row k is within `context` rows of a changed row (a changed row itself is, unless context < 0). */
  ghost predicate Near(rows: seq<Numbered>, context: int, k: int) {
    NearFirst(rows, context, k, |rows|)
  }

  ghost predicate NearFirst(rows: seq<Numbered>, context: int, k: int, n: int) {
    exists c :: 0 <= c < n && ChangeReaches(rows, context, c, k)
  }

  predicate ChangeReaches(rows: seq<Numbered>, context: int, c: int, k: int) {
    0 <= c < |rows| && rows[c].tag != Same && c - context <= k <= c + context
  }

  ghost function NearFlags(rows: seq<Numbered>, context: int): seq<bool> {
    seq(|rows|, k => Near(rows, context, k))
  }

  /** [lo, hi) is a maximal run of rows that are not near a change. */
  predicate FarRun(near: seq<bool>, lo: int, hi: int) {
    && 0 <= lo < hi <= |near|
    && (forall k :: lo <= k < hi ==> !near[k])
    && (lo == 0 || near[lo - 1])
    && (hi == |near| || near[hi])
  }

  /** Row k belongs to a far run too short to fold. */
  ghost predicate InShortRun(near: seq<bool>, minGap: int, k: int) {
    exists lo, hi :: lo <= k < hi && FarRun(near, lo, hi) && hi - lo < minGap
  }

  /** How many rows the segments hold. */
  function Total(segs: seq<Segment>): nat {
    if segs == [] then 0 else Total(segs[..|segs| - 1]) + |segs[|segs| - 1].rows|
  }

  /** A segment that starts at row lo holds those rows; a hidden one is a whole far run of at least
      minGap rows, a visible one holds only rows near a change or in too short a run. */
  ghost predicate SegmentRight(rows: seq<Numbered>, near: seq<bool>, minGap: int, seg: Segment, lo: int) {
    var hi := lo + |seg.rows|;
    && 0 <= lo < hi <= |rows| == |near| && seg.rows == rows[lo..hi]
    && (if seg.vis then forall k :: lo <= k < hi ==> near[k] || InShortRun(near, minGap, k)
        else FarRun(near, lo, hi) && hi - lo >= minGap)
  }

  /** The segments cover exactly the first n rows, each is right, and visible and hidden alternate. */
  ghost predicate Hunked(rows: seq<Numbered>, near: seq<bool>, minGap: int, segs: seq<Segment>, n: int) {
    if segs == [] then n == 0
    else
      var m := |segs| - 1;
      && SegmentRight(rows, near, minGap, segs[m], n - |segs[m].rows|)
      && (m > 0 ==> segs[m].vis != segs[m - 1].vis)
      && Hunked(rows, near, minGap, segs[..m], n - |segs[m].rows|)
  }

  /** The first pass: keep[k] says whether row k is near a change. */
  method MarkKept(rows: seq<Numbered>, context: int) returns (keep: array<bool>)
    ensures fresh(keep) && keep[..] == NearFlags(rows, context)
  {
    keep := new bool[|rows|](_ => false);
    for idx := 0 to |rows|
      invariant forall k :: 0 <= k < |rows| ==> (keep[k] <==> NearFirst(rows, context, k, idx))
    {
      ghost var before := keep[..];
      if rows[idx].tag != Same {
        MarkAround(keep, rows, context, idx);
      }
      forall k | 0 <= k < |rows|
        ensures keep[k] <==> NearFirst(rows, context, k, idx + 1)
      {
        assert before[k] <==> NearFirst(rows, context, k, idx);
        NearNext(rows, context, k, idx);
      }
    }
  }

  /** One changed row marks its surroundings. */
  method MarkAround(keep: array<bool>, rows: seq<Numbered>, context: int, idx: nat)
    requires keep.Length == |rows| && idx < |rows| && rows[idx].tag != Same
    modifies keep
    ensures forall k :: 0 <= k < |rows| ==> (keep[k] <==> old(keep[k]) || ChangeReaches(rows, context, idx, k))
  {
    var lo, hi := Max(0, idx - context), Min(|rows| - 1, idx + context);
    var c := lo;
    while c <= hi
      invariant lo <= c && (c <= hi + 1 || c == lo)
      invariant forall k :: 0 <= k < |rows| ==> (keep[k] <==> old(keep[k]) || (lo <= k < c))
    {
      keep[c] := true;
      c := c + 1;
    }
  }

  lemma NearNext(rows: seq<Numbered>, context: int, k: int, n: nat)
    requires n < |rows|
    ensures NearFirst(rows, context, k, n + 1) <==> NearFirst(rows, context, k, n) || ChangeReaches(rows, context, n, k)
  {
  }

  function Min(x: int, y: int): int { if x <= y then x else y }

  /** [start, i) is a run of equal flags that cannot be extended to the right. */
  predicate FlagRun(near: seq<bool>, start: int, i: int) {
    && 0 <= start < i <= |near|
    && (forall k :: start <= k < i ==> near[k] == near[start])
    && (i < |near| ==> near[i] != near[start])
  }

  /** The inner loop: the end of the run of equal flags that starts at i. */
  method RunEnd(keep: array<bool>, start: nat) returns (i: nat)
    requires start < keep.Length
    ensures FlagRun(keep[..], start, i)
  {
    i := start;
    while i < keep.Length && keep[i] == keep[start]
      invariant start <= i <= keep.Length && (forall k :: start <= k < i ==> keep[k] == keep[start])
    {
      i := i + 1;
    }
  }

  /** Append a run's slice as a segment of its own, or to the visible segment before it. */
  function AddRun(segs: seq<Segment>, seg: Segment): seq<Segment> {
    if segs != [] && segs[|segs| - 1].vis && seg.vis
    then segs[|segs| - 1 := Segment(true, segs[|segs| - 1].rows + seg.rows)]
    else segs + [seg]
  }

  /** hunkify, for any rows and any context and minGap (None is an absent option). */
  method Hunkify(rows: seq<Numbered>, contextOpt: Option<int>, minGapOpt: Option<int>) returns (segs: seq<Segment>)
    ensures Hunked(rows, NearFlags(rows, contextOpt.GetOr(CONTEXT)), minGapOpt.GetOr(MIN_GAP), segs, |rows|)
  {
    var minGap := minGapOpt.GetOr(MIN_GAP);
    var keep := MarkKept(rows, contextOpt.GetOr(CONTEXT));
    ghost var near := keep[..];
    segs := [];
    var i := 0;
    while i < |rows|
      invariant 0 <= i <= |rows| && near == keep[..]
      invariant HunkedUpTo(rows, near, minGap, segs, i)
      modifies {}
    {
      var start, vis := i, keep[i];
      i := RunEnd(keep, start);
      var slice := rows[start..i];
      ghost var before := segs;
      if !vis && |slice| < minGap {
        vis := true;
      }
      if segs != [] && segs[|segs| - 1].vis && vis {
        segs := segs[|segs| - 1 := Segment(true, segs[|segs| - 1].rows + slice)];
      } else {
        segs := segs + [Segment(vis, slice)];
      }
      RunAdded(rows, near, minGap, before, start, i);
    }
  }

  /** Hunked up to a row where the flags change, after whose predecessor a fold can only end. */
  ghost predicate HunkedUpTo(rows: seq<Numbered>, near: seq<bool>, minGap: int, segs: seq<Segment>, i: int) {
    && Hunked(rows, near, minGap, segs, i)
    && (0 < i < |near| ==> near[i] != near[i - 1])
    && (segs != [] && !segs[|segs| - 1].vis ==> 0 < i <= |near| && !near[i - 1])
  }

  lemma RunAdded(rows: seq<Numbered>, near: seq<bool>, minGap: int, segs: seq<Segment>, start: int, i: int)
    requires |rows| == |near| && FlagRun(near, start, i) && HunkedUpTo(rows, near, minGap, segs, start)
    ensures HunkedUpTo(rows, near, minGap, AddRun(segs, Segment(near[start] || i - start < minGap, rows[start..i])), i)
  {
    RunRight(rows, near, minGap, start, i);
    SegmentAdded(rows, near, minGap, segs, Segment(near[start] || i - start < minGap, rows[start..i]), start);
  }

  lemma SegmentAdded(rows: seq<Numbered>, near: seq<bool>, minGap: int, segs: seq<Segment>, seg: Segment, start: int)
    requires Hunked(rows, near, minGap, segs, start) && SegmentRight(rows, near, minGap, seg, start)
    requires segs != [] ==> segs[|segs| - 1].vis || seg.vis
    ensures Hunked(rows, near, minGap, AddRun(segs, seg), start + |seg.rows|)
  {
    if segs != [] && segs[|segs| - 1].vis && seg.vis {
      Merged(rows, near, minGap, segs, seg.rows, start);
    } else {
      Pushed(rows, near, minGap, segs, seg, start);
    }
  }

  /** A maximal run of equal flags becomes a right segment. */
  lemma RunRight(rows: seq<Numbered>, near: seq<bool>, minGap: int, start: int, i: int)
    requires |rows| == |near| && FlagRun(near, start, i) && (start > 0 ==> near[start - 1] != near[start])
    ensures SegmentRight(rows, near, minGap, Segment(near[start] || i - start < minGap, rows[start..i]), start)
  {
    if !near[start] {
      assert FarRun(near, start, i);
    }
  }

  lemma Pushed(rows: seq<Numbered>, near: seq<bool>, minGap: int, segs: seq<Segment>, seg: Segment, i: int)
    requires Hunked(rows, near, minGap, segs, i) && SegmentRight(rows, near, minGap, seg, i)
    requires segs != [] ==> segs[|segs| - 1].vis != seg.vis
    ensures Hunked(rows, near, minGap, segs + [seg], i + |seg.rows|)
  {
    assert (segs + [seg])[..|segs|] == segs;
  }

  lemma Merged(rows: seq<Numbered>, near: seq<bool>, minGap: int, segs: seq<Segment>, slice: seq<Numbered>, i: int)
    requires Hunked(rows, near, minGap, segs, i) && SegmentRight(rows, near, minGap, Segment(true, slice), i)
    requires segs != [] && segs[|segs| - 1].vis
    ensures Hunked(rows, near, minGap, segs[|segs| - 1 := Segment(true, segs[|segs| - 1].rows + slice)], i + |slice|)
  {
    var m := |segs| - 1;
    var merged := Segment(true, segs[m].rows + slice);
    assert segs[m := merged][..m] == segs[..m];
    assert merged.rows == rows[i - |segs[m].rows|..i + |slice|];
  }

  /** Joined back together, the segments are the rows. */
  function Flatten(segs: seq<Segment>): seq<Numbered> {
    if segs == [] then [] else Flatten(segs[..|segs| - 1]) + segs[|segs| - 1].rows
  }

  lemma {:induction false} HunksLoseNothing(rows: seq<Numbered>, near: seq<bool>, minGap: int, segs: seq<Segment>, n: int)
    requires Hunked(rows, near, minGap, segs, n)
    ensures 0 <= n <= |rows| && Flatten(segs) == rows[..n] && n == Total(segs)
  {
    if segs != [] {
      var m := |segs| - 1;
      HunksLoseNothing(rows, near, minGap, segs[..m], n - |segs[m].rows|);
      assert rows[..n] == rows[..n - |segs[m].rows|] + rows[n - |segs[m].rows|..n];
    }
  }

  lemma {:induction false} HunksAlternate(rows: seq<Numbered>, near: seq<bool>, minGap: int, segs: seq<Segment>, n: int, j: nat)
    requires Hunked(rows, near, minGap, segs, n) && 0 < j < |segs|
    ensures segs[j].vis != segs[j - 1].vis
  {
    var m := |segs| - 1;
    if j < m {
      HunksAlternate(rows, near, minGap, segs[..m], n - |segs[m].rows|, j);
    }
  }

  /** Which segment holds row k, and that the segment is right. */
  lemma {:induction false} Located(rows: seq<Numbered>, near: seq<bool>, minGap: int, segs: seq<Segment>, n: int, k: nat) returns (j: nat, lo: nat)
    requires Hunked(rows, near, minGap, segs, n) && k < n
    ensures j < |segs| && lo == Total(segs[..j]) && lo <= k < lo + |segs[j].rows|
    ensures SegmentRight(rows, near, minGap, segs[j], lo)
  {
    var m := |segs| - 1;
    HunksLoseNothing(rows, near, minGap, segs[..m], n - |segs[m].rows|);
    if n - |segs[m].rows| <= k {
      j, lo := m, n - |segs[m].rows|;
    } else {
      j, lo := Located(rows, near, minGap, segs[..m], n - |segs[m].rows|, k);
      assert segs[..m][..j] == segs[..j];
    }
  }

  /** Exactly the far runs of at least minGap rows are folded.  Wherever row k ends up: if it is in a
      far run [lo, hi) then its segment is hidden if and only if the run is long enough, and the
      segment is then that run; near a change it is visible; and a changed row is always visible
      unless the context is negative. */
  lemma HiddenIffLongFarRun(rows: seq<Numbered>, context: int, minGap: int, segs: seq<Segment>, lo: int, hi: int, k: nat)
    returns (j: nat)
    requires Hunked(rows, NearFlags(rows, context), minGap, segs, |rows|) && k < |rows|
    ensures j < |segs| && Total(segs[..j]) <= k < Total(segs[..j]) + |segs[j].rows|
    ensures FarRun(NearFlags(rows, context), lo, hi) && lo <= k < hi ==>
              if hi - lo >= minGap then !segs[j].vis && Total(segs[..j]) == lo && |segs[j].rows| == hi - lo
              else segs[j].vis
    ensures Near(rows, context, k) ==> segs[j].vis
    ensures context >= 0 && rows[k].tag != Same ==> segs[j].vis
  {
    var near := NearFlags(rows, context);
    assert near[k] == Near(rows, context, k);
    var start;
    j, start := Located(rows, near, minGap, segs, |rows|, k);
    if FarRun(near, lo, hi) && lo <= k < hi && segs[j].vis {
      assert InShortRun(near, minGap, k);
      var lo', hi' :| lo' <= k < hi' && FarRun(near, lo', hi') && hi' - lo' < minGap;
    }
    if context >= 0 && rows[k].tag != Same {
      assert ChangeReaches(rows, context, k, k);
    }
  }
}
