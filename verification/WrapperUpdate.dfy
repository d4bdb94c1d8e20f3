/**
  The self-update of the installed wrapper (src/mcp/update.py, src/mcp/bundle.py): which files make up
  the wrapper, how the set is fingerprinted, and what one update does to the disk.
 */
module WrapperUpdate {
  import opened Common

  type Path = string
  type Text = string

  /** The files under the install's src/, by relative path, with their text as stored (for one that is
      not UTF-8, anything that says so). */
  type Disk = map<Path, Text>

  /** A set of wrapper files, as served or as read back. */
  type Files = map<Path, Text>

  const Entry := "mcp_server.py"
  const Package := "mcp/"

  function Get(disk: Disk, p: Path): Option<Text> {
    if p in disk then Some(disk[p]) else None
  }

  predicate EndsWith(s: string, t: string) {
    |s| >= |t| && s[|s| - |t|..] == t
  }

  predicate WordChar(c: char) {
    'A' <= c <= 'Z' || 'a' <= c <= 'z' || '0' <= c <= '9' || c == '_'
  }

  /** What the pattern ^[A-Za-z0-9_]+\.py$ matches; Python's $ also matches before a final newline. */
  predicate ModuleName(n: string) {
    var m := if EndsWith(n, "\n") then n[..|n| - 1] else n;
    |m| > 3 && EndsWith(m, ".py") && forall k :: 0 <= k < |m| - 3 ==> WordChar(m[k])
  }

  /** _allowed: a path the server may send. */
  predicate Allowed(rel: Path) {
    rel == Entry || (|rel| > 4 && rel[..4] == Package && ModuleName(rel[4..]))
  }

  /** A path that counts as part of the wrapper on disk: the entry, or mcp/ and a name ending in .py. */
  predicate OnDisk(p: Path) {
    p == Entry || (|p| > 4 && p[..4] == Package && '/' !in p[4..] && EndsWith(p[4..], ".py"))
  }

  /** Reading in text mode: "\r\n" and a lone "\r" both become "\n". */
  function ReadText(t: Text): Text {
    if t == "" then ""
    else if t[0] == '\r' then "\n" + ReadText(t[if |t| > 1 && t[1] == '\n' then 2 else 1..])
    else [t[0]] + ReadText(t[1..])
  }

  /** What counts as installed: the entry, and the files ending in .py that are directly in mcp/. */
  lemma OnDiskIff(p: Path)
    ensures OnDisk(p) <==> p == "mcp_server.py" || exists n :: '/' !in n && p == "mcp/" + n + ".py"
  {
    if OnDisk(p) && p != Entry {
      var n := p[4..|p| - 3];
      assert p == "mcp/" + n + ".py" && '/' !in n by {
        assert p[4..][|p| - 7..] == p[|p| - 3..] && n == p[4..][..|p| - 7];
        assert p == p[..4] + p[4..|p| - 3] + p[|p| - 3..];
      }
    }
    if n :| '/' !in n && p == "mcp/" + n + ".py" {
      InstalledName(n);
    }
  }

  lemma InstalledName(n: string)
    requires '/' !in n
    ensures OnDisk("mcp/" + n + ".py")
  {
    var p, m := "mcp/" + n + ".py", n + ".py";
    assert p[..4] == "mcp/" && p[4..] == m;
    assert m[|n|..] == ".py" && m[|n|] == '.' && m[|n| + 1] == 'p' && m[|n| + 2] == 'y';
  }

  predicate Word(w: string) {
    w != "" && forall k :: 0 <= k < |w| ==> 'A' <= w[k] <= 'Z' || 'a' <= w[k] <= 'z' || '0' <= w[k] <= '9' || w[k] == '_'
  }

  /** The names the allow-list lets through: the entry, and mcp/ and a word ending in .py, perhaps with a
      line break after it. */
  lemma AllowedIff(rel: Path)
    ensures Allowed(rel) <==> rel == "mcp_server.py" || exists w :: Word(w) && (rel == "mcp/" + w + ".py" || rel == "mcp/" + w + ".py\n")
  {
    if Allowed(rel) && rel != Entry {
      var w := AllowedHasWord(rel);
    }
    if w :| Word(w) && (rel == "mcp/" + w + ".py" || rel == "mcp/" + w + ".py\n") {
      WordIsAllowed(w);
    }
  }

  lemma AllowedHasWord(rel: Path) returns (w: string)
    requires Allowed(rel) && rel != Entry
    ensures Word(w) && (rel == "mcp/" + w + ".py" || rel == "mcp/" + w + ".py\n")
  {
    var n := rel[4..];
    w := NameHasWord(n);
    assert rel == "mcp/" + n;
    assert "mcp/" + (w + ".py") == "mcp/" + w + ".py";
    assert "mcp/" + (w + ".py\n") == "mcp/" + w + ".py\n";
  }

  lemma NameHasWord(n: string) returns (w: string)
    requires ModuleName(n)
    ensures Word(w) && (n == w + ".py" || n == w + ".py\n")
  {
    var m := if EndsWith(n, "\n") then n[..|n| - 1] else n;
    w := m[..|m| - 3];
    assert m == w + m[|m| - 3..];
    forall k | 0 <= k < |w|
      ensures WordChar(w[k])
    {
      assert WordChar(m[k]);
    }
    if EndsWith(n, "\n") {
      assert n == m + n[|n| - 1..];
      assert w + ".py" + "\n" == w + ".py\n";
    }
  }

  lemma WordNames(w: string)
    requires Word(w)
    ensures ModuleName(w + ".py") && ModuleName(w + ".py\n")
  {
    var n, m := w + ".py", w + ".py\n";
    assert forall k :: 0 <= k < |w| ==> WordChar(w[k]) && n[k] == w[k];
    assert n[|w|..] == ".py" && n[|n| - 1] == 'y';
    assert m[|m| - 1..] == "\n" && m[..|m| - 1] == n;
    assert n[|n| - 1..][0] != '\n';
  }

  lemma WordIsAllowed(w: string)
    requires Word(w)
    ensures Allowed("mcp/" + w + ".py") && Allowed("mcp/" + w + ".py\n")
  {
    WordNames(w);
    NameIsAllowed("mcp/" + w + ".py", w + ".py");
    NameIsAllowed("mcp/" + w + ".py\n", w + ".py\n");
  }

  lemma NameIsAllowed(rel: Path, n: string)
    requires ModuleName(n) && rel == "mcp/" + n
    ensures Allowed(rel)
  {
    assert rel[..4] == "mcp/" && rel[4..] == n;
  }

  /** What a text with line breaks of any kind reads as, from its first carriage return on. */
  lemma {:induction false} ReadsAsLines(a: Text, b: Text)
    requires '\r' !in a
    ensures ReadText(a) == a
    ensures ReadText(a + "\r\n" + b) == a + "\n" + ReadText(b)
    ensures (b == "" || b[0] != '\n') ==> ReadText(a + "\r" + b) == a + "\n" + ReadText(b)
  {
    var x, y := a + "\r\n" + b, a + "\r" + b;
    if a == "" {
      assert x[0] == '\r' && x[1] == '\n' && x[2..] == b;
      assert y[0] == '\r' && y[1..] == b;
    } else {
      ReadsAsLines(a[1..], b);
      assert a == [a[0]] + a[1..];
      assert x[0] == a[0] && x[1..] == a[1..] + "\r\n" + b;
      assert y[0] == a[0] && y[1..] == a[1..] + "\r" + b;
    }
  }

  /** The wrapper set on disk. */
  function WrapperSet(disk: Disk): Files {
    map p | p in disk && OnDisk(p) :: ReadText(disk[p])
  }

  // ----------------------------------------------------------------------------------------------
  // Sorted listings and their fingerprint
  // ----------------------------------------------------------------------------------------------

  type Item = (Path, Text)

  /** Python's order on strings. */
  predicate Less(a: string, b: string) {
    b != "" && (a == "" || a[0] < b[0] || (a[0] == b[0] && Less(a[1..], b[1..])))
  }

  /** That is: at the first place where they differ a has the smaller character, or a ends there. */
  lemma {:induction false} LessIff(a: string, b: string)
    ensures Less(a, b) <==> exists k :: DiffersAt(a, b, k)
  {
    if a != "" && b != "" && a[0] == b[0] {
      LessIff(a[1..], b[1..]);
      if k :| DiffersAt(a[1..], b[1..], k) {
        assert a[..k + 1] == [a[0]] + a[1..][..k] && b[..k + 1] == [b[0]] + b[1..][..k];
        assert DiffersAt(a, b, k + 1);
      }
      if k :| DiffersAt(a, b, k) {
        assert a[1..][..k - 1] == a[..k][1..] && b[1..][..k - 1] == b[..k][1..];
        assert DiffersAt(a[1..], b[1..], k - 1);
      }
    } else if Less(a, b) {
      assert DiffersAt(a, b, 0);
    }
  }

  predicate DiffersAt(a: string, b: string, k: int) {
    0 <= k <= |a| && k < |b| && a[..k] == b[..k] && (k == |a| || a[k] < b[k])
  }

  lemma {:induction false} LessIsTotal(a: string, b: string)
    ensures a == b || Less(a, b) || Less(b, a)
    ensures !(Less(a, b) && Less(b, a)) && (Less(a, b) ==> a != b)
  {
    if a != "" && b != "" && a[0] == b[0] {
      LessIsTotal(a[1..], b[1..]);
      assert a == [a[0]] + a[1..] && b == [b[0]] + b[1..];
    }
  }

  lemma {:induction false} LessIsTransitive(a: string, b: string, c: string)
    requires Less(a, b) && Less(b, c)
    ensures Less(a, c)
  {
    if a != "" && a[0] == b[0] == c[0] {
      LessIsTransitive(a[1..], b[1..], c[1..]);
    }
  }

  predicate Ascending(l: seq<Item>) {
    forall i, j :: 0 <= i < j < |l| ==> Less(l[i].0, l[j].0)
  }

  /** l lists exactly the files of m, sorted by path. */
  predicate Lists(l: seq<Item>, m: Files) {
    && Ascending(l)
    && (forall x :: x in l ==> x.0 in m && m[x.0] == x.1)
    && (forall p :: p in m ==> (p, m[p]) in l)
  }

  function Insert(l: seq<Item>, x: Item): (out: seq<Item>)
    ensures forall y :: y in out <==> y == x || y in l
  {
    if l == [] then [x]
    else if Less(l[0].0, x.0) then
      var rest := Insert(l[1..], x);
      assert l == [l[0]] + l[1..];
      [l[0]] + rest
    else [x] + l
  }

  lemma {:induction false} InsertAscends(l: seq<Item>, x: Item)
    requires Ascending(l) && forall y :: y in l ==> y.0 != x.0
    ensures Ascending(Insert(l, x))
  {
    if l == [] {
    } else if Less(l[0].0, x.0) {
      var rest := Insert(l[1..], x);
      InsertAscends(l[1..], x);
      forall k | 0 <= k < |rest|
        ensures Less(l[0].0, rest[k].0)
      {
        assert rest[k] in rest;
      }
    } else {
      LessIsTotal(l[0].0, x.0);
      assert l[0] in l;
      forall k | 0 <= k < |l|
        ensures Less(x.0, l[k].0)
      {
        if k > 0 {
          LessIsTransitive(x.0, l[0].0, l[k].0);
        }
      }
    }
  }

  lemma InsertLists(l: seq<Item>, m: Files, p: Path, t: Text)
    requires Lists(l, m) && p !in m
    ensures Lists(Insert(l, (p, t)), m[p := t])
  {
    InsertAscends(l, (p, t));
  }

  lemma {:induction false} ListingExists(m: Files)
    ensures exists l :: Lists(l, m)
    decreases |m|
  {
    if m == map[] {
      assert Lists([], m);
    } else {
      var p :| p in m;
      var rest := m - {p};
      assert m == rest[p := m[p]];
      ListingExists(rest);
      var l :| Lists(l, rest);
      InsertLists(l, rest, p, m[p]);
    }
  }

  lemma FirstIsSame(a: seq<Item>, b: seq<Item>, m: Files)
    requires Lists(a, m) && Lists(b, m) && a != [] && b != []
    ensures a[0] == b[0]
  {
    assert a[0] in b && b[0] in a;
    var i :| 0 <= i < |b| && b[i] == a[0];
    var j :| 0 <= j < |a| && a[j] == b[0];
    LessIsTotal(a[0].0, b[0].0);
  }

  lemma EmptyListing(l: seq<Item>, m: Files)
    requires Lists(l, m)
    ensures l == [] <==> m == map[]
  {
    if l != [] {
      assert l[0] in l;
    } else {
      assert m.Keys == {};
    }
  }

  /** A set of files has one listing only, whatever order the directory was read in. */
  lemma {:induction false} ListingIsUnique(a: seq<Item>, b: seq<Item>, m: Files)
    requires Lists(a, m) && Lists(b, m)
    ensures a == b
  {
    EmptyListing(a, m);
    EmptyListing(b, m);
    if a != [] {
      FirstIsSame(a, b, m);
      RestLists(a, m);
      RestLists(b, m);
      ListingIsUnique(a[1..], b[1..], m - {a[0].0});
    }
  }

  lemma RestLists(a: seq<Item>, m: Files)
    requires Lists(a, m) && a != []
    ensures Lists(a[1..], m - {a[0].0})
  {
    var rest := a[1..];
    assert a == [a[0]] + rest;
    forall x | x in rest
      ensures x.0 in m && m[x.0] == x.1 && x.0 != a[0].0
    {
      var k :| 0 <= k < |rest| && rest[k] == x;
      assert a[k + 1] == x;
      LessIsTotal(a[0].0, x.0);
    }
  }

  ghost function Listing(m: Files): (l: seq<Item>)
    ensures Lists(l, m)
  {
    ListingExists(m);
    var l :| Lists(l, m);
    l
  }

  /** What is fed to the hash: each path and each text followed by a NUL. */
  function Stream(l: seq<Item>): string {
    if l == [] then "" else l[0].0 + "\0" + (l[0].1 + "\0" + Stream(l[1..]))
  }

  lemma FedInOrder(fed: string, a: string, b: string, rest: string)
    ensures fed + a + "\0" + b + "\0" + rest == fed + (a + "\0" + (b + "\0" + rest))
  {
  }

  ghost function Version(hash: string -> string, m: Files): string {
    hash(Stream(Listing(m)))
  }

  predicate NoNul(m: Files) {
    forall p :: p in m ==> '\0' !in p && '\0' !in m[p]
  }

  lemma CutAtNul(u: string, x: string, v: string, y: string)
    requires u + "\0" + x == v + "\0" + y && '\0' !in u && '\0' !in v
    ensures u == v && x == y
  {
    var s := u + "\0" + x;
    assert forall k :: 0 <= k < |u| ==> s[k] == u[k];
    assert forall k :: 0 <= k < |v| ==> s[k] == v[k];
    assert s[|u|] == '\0' && s[|v|] == '\0';
    assert |u| == |v|;
    assert u == s[..|u|] && v == s[..|v|] && x == s[|u| + 1..] && y == s[|v| + 1..];
  }

  predicate ItemsNoNul(l: seq<Item>) {
    forall k :: 0 <= k < |l| ==> '\0' !in l[k].0 && '\0' !in l[k].1
  }

  lemma {:induction false} StreamIsInjective(a: seq<Item>, b: seq<Item>)
    requires ItemsNoNul(a) && ItemsNoNul(b) && Stream(a) == Stream(b)
    ensures a == b
  {
    if a != [] && b != [] {
      CutAtNul(a[0].0, a[0].1 + "\0" + Stream(a[1..]), b[0].0, b[0].1 + "\0" + Stream(b[1..]));
      CutAtNul(a[0].1, Stream(a[1..]), b[0].1, Stream(b[1..]));
      StreamIsInjective(a[1..], b[1..]);
      assert a == [a[0]] + a[1..] && b == [b[0]] + b[1..];
    }
  }

  /** The version tells any two sets without NULs apart, as far as the hash tells their streams apart:
      an equal version means there is nothing to update. */
  lemma VersionTellsApart(hash: string -> string, m: Files, n: Files)
    requires NoNul(m) && NoNul(n)
    requires hash(Stream(Listing(m))) == hash(Stream(Listing(n))) ==> Stream(Listing(m)) == Stream(Listing(n))
    ensures Version(hash, m) == Version(hash, n) <==> m == n
  {
    var a, b := Listing(m), Listing(n);
    if Version(hash, m) == Version(hash, n) {
      assert forall k :: 0 <= k < |a| ==> a[k] in a;
      assert forall k :: 0 <= k < |b| ==> b[k] in b;
      StreamIsInjective(a, b);
      forall p
        ensures p in m <==> p in n
        ensures p in m ==> m[p] == n[p]
      {
        if p in m { assert (p, m[p]) in b; }
        if p in n { assert (p, n[p]) in a; }
      }
      assert m == n;
    }
  }

  /** split('\0'): a text is at least one field. */
  function SplitNul(t: Text): (fields: seq<string>)
    ensures |fields| >= 1
  {
    if t == "" then [""]
    else
      var rest := SplitNul(t[1..]);
      if t[0] == '\0' then [""] + rest else [[t[0]] + rest[0]] + rest[1..]
  }

  /** The fields of a listing: each path, then its text cut at its NULs. */
  function Fields(l: seq<Item>): seq<string> {
    if l == [] then [] else [l[0].0] + SplitNul(l[0].1) + Fields(l[1..])
  }

  /** Each field followed by a NUL. */
  function Close(fields: seq<string>): string {
    if fields == [] then "" else fields[0] + "\0" + Close(fields[1..])
  }

  predicate FieldsNoNul(fields: seq<string>) {
    forall k :: 0 <= k < |fields| ==> '\0' !in fields[k]
  }

  lemma {:induction false} CloseAppend(a: seq<string>, b: seq<string>)
    ensures Close(a + b) == Close(a) + Close(b)
  {
    if a == [] {
      assert a + b == b;
    } else {
      CloseAppend(a[1..], b);
      assert (a + b)[1..] == a[1..] + b;
    }
  }

  lemma {:induction false} CloseIsInjective(a: seq<string>, b: seq<string>)
    requires FieldsNoNul(a) && FieldsNoNul(b) && Close(a) == Close(b)
    ensures a == b
  {
    if a != [] && b != [] {
      CutAtNul(a[0], Close(a[1..]), b[0], Close(b[1..]));
      CloseIsInjective(a[1..], b[1..]);
      assert a == [a[0]] + a[1..] && b == [b[0]] + b[1..];
    }
  }

  lemma {:induction false} SplitNulCloses(t: Text)
    ensures Close(SplitNul(t)) == t + "\0" && FieldsNoNul(SplitNul(t))
  {
    if t == "" {
      assert [""][1..] == [];
    } else {
      SplitNulCloses(t[1..]);
      var rest, all := SplitNul(t[1..]), SplitNul(t);
      if t[0] == '\0' {
        assert all[1..] == rest;
        assert Close(all) == "" + "\0" + (t[1..] + "\0");
      } else {
        assert all[1..] == rest[1..];
        assert Close(all) == [t[0]] + Close(rest);
      }
      assert t == [t[0]] + t[1..];
    }
  }

  lemma {:induction false} StreamCloses(l: seq<Item>)
    requires forall k :: 0 <= k < |l| ==> '\0' !in l[k].0
    ensures Stream(l) == Close(Fields(l)) && FieldsNoNul(Fields(l))
  {
    if l != [] {
      StreamCloses(l[1..]);
      SplitNulCloses(l[0].1);
      var head := [l[0].0] + SplitNul(l[0].1);
      assert head[1..] == SplitNul(l[0].1);
      CloseAppend(head, Fields(l[1..]));
      assert Close(head) == l[0].0 + "\0" + (l[0].1 + "\0");
      assert Stream(l) == Close(head) + Stream(l[1..]);
    }
  }

  /** Exactly which sets have the same version, as far as the hash tells their streams apart: those whose
      listings have the same fields, that is, which differ only in whether a NUL-enclosed piece of text is
      read as a text or as the next path. */
  lemma SameVersionIff(hash: string -> string, m: Files, n: Files)
    requires (forall p :: p in m ==> '\0' !in p) && (forall p :: p in n ==> '\0' !in p)
    requires hash(Stream(Listing(m))) == hash(Stream(Listing(n))) ==> Stream(Listing(m)) == Stream(Listing(n))
    ensures Version(hash, m) == Version(hash, n) <==> Fields(Listing(m)) == Fields(Listing(n))
  {
    var a, b := Listing(m), Listing(n);
    assert forall k :: 0 <= k < |a| ==> a[k] in a;
    assert forall k :: 0 <= k < |b| ==> b[k] in b;
    StreamCloses(a);
    StreamCloses(b);
    if Version(hash, m) == Version(hash, n) {
      CloseIsInjective(Fields(a), Fields(b));
    }
  }

  lemma LessThere()
    ensures Less("mcp/a.py", "mcp/b.py")
  {
    assert "mcp/a.py"[1..][1..][1..][1..] == "a.py" && "mcp/b.py"[1..][1..][1..][1..] == "b.py";
    assert Less("a.py", "b.py");
    assert Less("mcp/a.py"[1..][1..][1..], "mcp/b.py"[1..][1..][1..]);
    assert Less("mcp/a.py"[1..][1..], "mcp/b.py"[1..][1..]);
  }

  /** With a NUL in a text two different sets have the same stream, and so the same version. */
  lemma NulHidesADifference(hash: string -> string, x: Text, y: Text)
    ensures var m: Files := map["mcp/a.py" := x + "\0mcp/b.py\0" + y];
            var n: Files := map["mcp/a.py" := x, "mcp/b.py" := y];
            m.Keys != n.Keys && Version(hash, m) == Version(hash, n)
  {
    var a, b, z := "mcp/a.py", "mcp/b.py", x + "\0mcp/b.py\0" + y;
    var m: Files := map[a := z];
    var n: Files := map[a := x, b := y];
    assert a[4] != b[4];
    assert b in n && b !in m;
    var l: seq<Item> := [(a, z)];
    var k: seq<Item> := [(a, x), (b, y)];
    LessThere();
    assert Lists(l, m) && Lists(k, n);
    ListingIsUnique(l, Listing(m), m);
    ListingIsUnique(k, Listing(n), n);
    assert l[1..] == [] && k[1..] == [(b, y)] && k[1..][1..] == [];
    assert Stream(k[1..]) == b + "\0" + (y + "\0" + "");
    assert z + "\0" + "" == x + "\0" + (b + "\0" + (y + "\0" + ""));
  }

  // ----------------------------------------------------------------------------------------------
  // One update
  // ----------------------------------------------------------------------------------------------

  function Base(p: Path): Path {
    if |p| >= 4 then p[..|p| - 4] else ""
  }

  /** What the disk has at p once `written` have been installed and `retired` soft-deleted. */
  function After(disk: Disk, written: Files, retired: set<Path>, p: Path): Option<Text> {
    if p in written then Some(written[p])
    else if EndsWith(p, ".new") && Base(p) in written then None
    else if EndsWith(p, ".bak") && Base(p) in disk && (Base(p) in written || Base(p) in retired) then Some(disk[Base(p)])
    else if p in retired then None
    else Get(disk, p)
  }

  /** Wrapper files the server does not serve. */
  function Extras(disk: Disk, files: Files): set<Path> {
    set p | p in disk && OnDisk(p) && p !in files
  }

  predicate At(disk: Disk, written: Files, retired: set<Path>, disk': Disk, p: Path) {
    Get(disk', p) == After(disk, written, retired, p)
  }

  ghost predicate Reached(disk: Disk, written: Files, retired: set<Path>, disk': Disk) {
    forall p :: At(disk, written, retired, disk', p)
  }

  /** disk' is disk after _apply; `stuck` are the files whose rename the system refuses. */
  ghost predicate Applied(disk: Disk, files: Files, stuck: set<Path>, disk': Disk) {
    Reached(disk, files, Extras(disk, files) - stuck, disk')
  }

  /** How every wrapper path ends, and no .bak or .new sibling does. */
  predicate SourceEnd(p: Path) {
    p != "" && (p[|p| - 1] == 'y' || p[|p| - 1] == '\n')
  }

  lemma WrapperEnds(p: Path)
    requires Allowed(p) || OnDisk(p)
    ensures SourceEnd(p)
  {
    if p != Entry {
      var n := p[4..];
      assert n[|n| - 1] == p[|p| - 1];
      if EndsWith(n, ".py") {
        assert n[|n| - 1] == n[|n| - 3..][2];
      } else {
        assert EndsWith(n, "\n");
        assert n[|n| - 1] == n[|n| - 1..][0];
      }
    }
  }

  lemma SiblingsAreOutside(r: Path)
    ensures !SourceEnd(r + ".bak") && !SourceEnd(r + ".new")
    ensures Base(r + ".bak") == r == Base(r + ".new") && EndsWith(r + ".bak", ".bak") && EndsWith(r + ".new", ".new")
    ensures !EndsWith(r + ".bak", ".new") && !EndsWith(r + ".new", ".bak")
  {
    assert (r + ".bak")[|r + ".bak"| - 4..] == ".bak" && (r + ".new")[|r + ".new"| - 4..] == ".new";
    assert ".bak"[0] == '.' && ".bak"[1] == 'b' && ".new"[1] == 'n';
  }

  lemma SourceHasNoSiblingEnd(p: Path)
    requires SourceEnd(p)
    ensures !EndsWith(p, ".bak") && !EndsWith(p, ".new")
  {
    if |p| >= 4 {
      assert p[|p| - 4..][3] == p[|p| - 1];
    }
  }

  predicate AllSource(files: Files, retired: set<Path>) {
    (forall r :: r in files ==> SourceEnd(r)) && (forall r :: r in retired ==> SourceEnd(r))
  }

  lemma SiblingForm(p: Path)
    ensures EndsWith(p, ".bak") ==> p == Base(p) + ".bak"
    ensures EndsWith(p, ".new") ==> p == Base(p) + ".new"
  {
  }

  function Installed(disk: Disk, rel: Path, text: Text): Disk {
    var saved := if rel in disk then disk[rel + ".bak" := disk[rel]] else disk;
    (saved - {rel + ".new"})[rel := text]
  }

  lemma InstallPoint(disk0: Disk, disk: Disk, written: Files, rel: Path, text: Text, p: Path)
    requires AllSource(written, {}) && rel !in written && SourceEnd(rel) && Get(disk, rel) == Get(disk0, rel)
    requires At(disk0, written, {}, disk, p)
    ensures At(disk0, written[rel := text], {}, Installed(disk, rel, text), p)
  {
    SiblingsAreOutside(rel);
    if p != rel && p != rel + ".bak" && p != rel + ".new" {
      SiblingForm(p);
      assert Get(Installed(disk, rel, text), p) == Get(disk, p);
    }
  }

  lemma Unwritten(disk0: Disk, disk: Disk, written: Files, retired: set<Path>, rel: Path)
    requires At(disk0, written, retired, disk, rel) && rel !in written && rel !in retired && SourceEnd(rel)
    ensures Get(disk, rel) == Get(disk0, rel)
  {
    SourceHasNoSiblingEnd(rel);
  }

  lemma InstallOne(disk0: Disk, disk: Disk, written: Files, rel: Path, text: Text)
    requires Reached(disk0, written, {}, disk) && AllSource(written, {}) && rel !in written && SourceEnd(rel)
    ensures Reached(disk0, written[rel := text], {}, Installed(disk, rel, text))
  {
    var written', disk' := written[rel := text], Installed(disk, rel, text);
    assert At(disk0, written, {}, disk, rel);
    Unwritten(disk0, disk, written, {}, rel);
    forall p
      ensures At(disk0, written', {}, disk', p)
    {
      assert At(disk0, written, {}, disk, p);
      InstallPoint(disk0, disk, written, rel, text, p);
    }
  }

  function Retired(disk: Disk, rel: Path): Disk
    requires rel in disk
  {
    disk[rel + ".bak" := disk[rel]] - {rel}
  }

  lemma RetirePoint(disk0: Disk, disk: Disk, files: Files, retired: set<Path>, rel: Path, p: Path)
    requires AllSource(files, retired) && rel !in files && rel !in retired && SourceEnd(rel)
    requires rel in disk && Get(disk, rel) == Get(disk0, rel) && At(disk0, files, retired, disk, p)
    ensures At(disk0, files, retired + {rel}, Retired(disk, rel), p)
  {
    SiblingsAreOutside(rel);
    if p == rel {
      SourceHasNoSiblingEnd(p);
    } else if p != rel + ".bak" {
      SiblingForm(p);
      assert Get(Retired(disk, rel), p) == Get(disk, p);
    }
  }

  lemma RetireOne(disk0: Disk, disk: Disk, files: Files, retired: set<Path>, rel: Path)
    requires Reached(disk0, files, retired, disk) && AllSource(files, retired)
    requires rel !in files && rel !in retired && SourceEnd(rel) && rel in disk0
    ensures rel in disk && Reached(disk0, files, retired + {rel}, Retired(disk, rel))
  {
    assert At(disk0, files, retired, disk, rel);
    Unwritten(disk0, disk, files, retired, rel);
    forall p
      ensures At(disk0, files, retired + {rel}, Retired(disk, rel), p)
    {
      assert At(disk0, files, retired, disk, p);
      RetirePoint(disk0, disk, files, retired, rel, p);
    }
  }

  /** Installing the served files does not change which files are extra. */
  lemma ExtrasStay(disk0: Disk, disk: Disk, files: Files)
    requires Reached(disk0, files, {}, disk)
    ensures Extras(disk, files) == Extras(disk0, files)
  {
    forall p | OnDisk(p) && p !in files
      ensures Get(disk, p) == Get(disk0, p)
    {
      assert At(disk0, files, {}, disk, p);
      WrapperEnds(p);
      Unwritten(disk0, disk, files, {}, p);
    }
    assert forall p :: p in disk <==> Get(disk, p).Some?;
    assert forall p :: p in disk0 <==> Get(disk0, p).Some?;
  }

  datatype Payload = Payload(version: string, files: Files)

  /** Every installed wrapper file can be read: reading one that is not UTF-8 raises. */
  predicate AllRead(utf8: Text -> bool, disk: Disk) {
    forall p :: p in disk && OnDisk(p) ==> utf8(disk[p])
  }

  /** Every served text can be hashed: encoding one with a lone surrogate raises. */
  predicate AllEncode(utf8: Text -> bool, files: Files) {
    forall rel :: rel in files ==> utf8(files[rel])
  }

  /** Whether a run goes as far as _apply. */
  ghost predicate WillApply(hash: string -> string, utf8: Text -> bool, disk: Disk, managed: bool, served: Option<string>, payload: Option<Payload>) {
    && managed && AllRead(utf8, disk) && served.GetOr("") != "" && served.value != Version(hash, WrapperSet(disk))
    && payload.Some? && (forall rel :: rel in payload.value.files ==> Allowed(rel)) && AllEncode(utf8, payload.value.files)
    && Version(hash, payload.value.files) == payload.value.version == served.value
  }

  class Install {
    const hash: string -> string
    const utf8: Text -> bool    // stored: it decodes; served: it encodes
    var disk: Disk

    constructor (hash: string -> string, utf8: Text -> bool, disk: Disk)
      ensures this.hash == hash && this.utf8 == utf8 && this.disk == disk
    {
      this.hash, this.utf8, this.disk := hash, utf8, disk;
    }

    /** wrapper_files: whatever order the directory lists its names in, the result is sorted; None if a
        file cannot be read. */
    method WrapperFiles() returns (out: Option<seq<Item>>)
      ensures out == if AllRead(utf8, disk) then Some(Listing(WrapperSet(disk))) else None
    {
      if exists p :: p in disk && OnDisk(p) && !utf8(disk[p]) {
        return None;
      }
      var items := SortedItems(WrapperSet(disk));
      out := Some(items);
    }

    /** wrapper_version */
    method WrapperVersion(files: seq<Item>) returns (version: string)
      ensures version == hash(Stream(files))
    {
      var fed := "";
      for i := 0 to |files|
        invariant fed + Stream(files[i..]) == Stream(files)
      {
        assert files[i..][1..] == files[i + 1..];
        FedInOrder(fed, files[i].0, files[i].1, Stream(files[i + 1..]));
        fed := fed + files[i].0;
        fed := fed + "\0";
        fed := fed + files[i].1;
        fed := fed + "\0";
      }
      assert files[|files|..] == [] && fed + "" == fed;
      version := hash(fed);
    }

    /** One file: keep the old one as .bak, write beside it, and rename over it. */
    method InstallFile(rel: Path, text: Text)
      modifies this
      ensures disk == Installed(old(disk), rel, text)
    {
      var tmp := rel + ".new";
      SiblingsAreOutside(rel);
      if rel in disk {
        disk := disk[rel + ".bak" := disk[rel]];
      }
      disk := disk[tmp := text];
      disk := disk[rel := disk[tmp]];
      disk := disk - {tmp};
    }

    /** _apply */
    method Apply(files: Files, stuck: set<Path>)
      requires forall rel :: rel in files ==> Allowed(rel)
      modifies this
      ensures Applied(old(disk), files, stuck, disk)
    {
      ghost var disk0 := disk;
      forall rel | rel in files
        ensures SourceEnd(rel)
      {
        WrapperEnds(rel);
      }
      InstallServed(files);
      ExtrasStay(disk0, disk, files);
      RetireExtras(files, stuck, disk0);
    }

    method InstallServed(files: Files)
      requires AllSource(files, {})
      modifies this
      ensures Reached(old(disk), files, {}, disk)
    {
      ghost var disk0 := disk;
      var todo := files.Keys;
      ghost var written: Files := map[];
      assert forall p :: At(disk0, written, {}, disk, p);
      while todo != {}
        invariant todo <= files.Keys && written == files - todo
        invariant Reached(disk0, written, {}, disk)
        decreases |todo|
      {
        var rel :| rel in todo;
        InstallOne(disk0, disk, written, rel, files[rel]);
        InstallFile(rel, files[rel]);
        todo := todo - {rel};
        written := written[rel := files[rel]];
        assert written == files - todo;
      }
      assert written == files;
    }

    method RetireExtras(files: Files, stuck: set<Path>, ghost disk0: Disk)
      requires Reached(disk0, files, {}, disk)
      requires AllSource(files, {}) && Extras(disk, files) == Extras(disk0, files)
      modifies this
      ensures Applied(disk0, files, stuck, disk)
    {
      var todo := Extras(disk, files);
      ghost var extras := todo;
      ghost var retired: set<Path> := {};
      while todo != {}
        invariant todo <= extras && retired == extras - todo - stuck
        invariant Reached(disk0, files, retired, disk) && AllSource(files, retired)
        decreases |todo|
      {
        var rel :| rel in todo;
        if rel !in stuck {
          WrapperEnds(rel);
          RetireOne(disk0, disk, files, retired, rel);
          disk := Retired(disk, rel);
          retired := retired + {rel};
        }
        todo := todo - {rel};
        assert retired == extras - todo - stuck;
      }
      assert retired == extras - stuck;
    }

    /** maybe_self_update: `served` is what /install/version answers and `payload` what /install/wrapper
        answers, None if the request fails. */
    method MaybeSelfUpdate(managed: bool, served: Option<string>, payload: Option<Payload>, stuck: set<Path>) returns (applied: bool)
      modifies this
      ensures applied <==> WillApply(hash, utf8, old(disk), managed, served, payload)
      ensures applied ==> Applied(old(disk), payload.value.files, stuck, disk)
      ensures !applied ==> disk == old(disk)
    {
      if !managed {
        return false;
      }
      var current := WrapperFiles();
      if current == None {
        return false;
      }
      var local := WrapperVersion(current.value);
      if served == None || served.value == "" || served.value == local {
        return false;
      }
      if payload == None {
        return false;
      }
      var files := payload.value.files;
      if exists rel :: rel in files && !Allowed(rel) {
        return false;
      }
      if exists rel :: rel in files && !utf8(files[rel]) {
        return false;
      }
      var items := SortedItems(files);
      var got := WrapperVersion(items);
      if got != payload.value.version || got != served.value {
        return false;
      }
      Apply(files, stuck);
      applied := true;
    }
  }

  method SortedItems(files: Files) returns (out: seq<Item>)
    ensures out == Listing(files)
  {
    var todo := files.Keys;
    out := [];
    while todo != {}
      invariant todo <= files.Keys && Lists(out, files - todo)
      decreases |todo|
    {
      var rel :| rel in todo;
      InsertLists(out, files - todo, rel, files[rel]);
      assert (files - todo)[rel := files[rel]] == files - (todo - {rel});
      out := Insert(out, (rel, files[rel]));
      todo := todo - {rel};
    }
    assert files - {} == files;
    ListingIsUnique(out, Listing(files), files);
  }

  // ----------------------------------------------------------------------------------------------
  // Convergence
  // ----------------------------------------------------------------------------------------------

  lemma {:induction false} ReadTextIsExactIff(t: Text)
    ensures '\r' !in ReadText(t) && (ReadText(t) == t <==> '\r' !in t)
  {
    if t != "" {
      if t[0] == '\r' {
        ReadTextIsExactIff(t[if |t| > 1 && t[1] == '\n' then 2 else 1..]);
      } else {
        ReadTextIsExactIff(t[1..]);
        assert t == [t[0]] + t[1..];
      }
    }
  }

  lemma AllowedIsOnDiskIff(rel: Path)
    requires Allowed(rel)
    ensures OnDisk(rel) <==> !EndsWith(rel, "\n")
  {
    if rel != Entry {
      var n := rel[4..];
      assert n[|n| - 1..] == rel[|rel| - 1..];
      if EndsWith(rel, "\n") {
        assert n[|n| - 3..][2] == rel[|rel| - 1..][0];
      } else {
        ModuleNameHasNoSlash(n);
      }
    }
  }

  lemma ModuleNameHasNoSlash(n: string)
    requires ModuleName(n) && !EndsWith(n, "\n")
    ensures '/' !in n
  {
    assert n[|n| - 3..] == ".py";
    forall k | 0 <= k < |n|
      ensures n[k] != '/'
    {
      assert k < |n| - 3 ==> WordChar(n[k]);
      if k >= |n| - 3 {
        assert n[k] == n[|n| - 3..][k - (|n| - 3)];
      }
    }
  }

  /** What a served set must be for the wrapper to read back what was served. */
  predicate Readable(files: Files) {
    forall rel :: rel in files ==> !EndsWith(rel, "\n") && '\r' !in files[rel]
  }

  lemma AppliedWrapper(disk: Disk, files: Files, stuck: set<Path>, disk': Disk, p: Path)
    requires (forall rel :: rel in files ==> Allowed(rel)) && Applied(disk, files, stuck, disk') && OnDisk(p)
    ensures p in disk' <==> p in files || p in Extras(disk, files) * stuck
    ensures p in files ==> disk'[p] == files[p]
  {
    assert At(disk, files, Extras(disk, files) - stuck, disk', p);
    WrapperEnds(p);
    SourceHasNoSiblingEnd(p);
  }

  /** Membership in the wrapper set read back, path by path. */
  predicate InWrapper(w: Files, disk: Disk, files: Files, stuck: set<Path>, p: Path) {
    && (p in files ==> (p in w <==> !EndsWith(p, "\n")))
    && (p in files && p in w ==> (w[p] == files[p] <==> '\r' !in files[p]))
    && (p !in files ==> (p in w <==> p in Extras(disk, files) && p in stuck))
  }

  lemma WrapperPoint(disk: Disk, files: Files, stuck: set<Path>, disk': Disk, p: Path)
    requires (forall rel :: rel in files ==> Allowed(rel)) && Applied(disk, files, stuck, disk')
    ensures InWrapper(WrapperSet(disk'), disk, files, stuck, p)
  {
    if OnDisk(p) {
      AppliedWrapper(disk, files, stuck, disk', p);
    }
    if p in files {
      AllowedIsOnDiskIff(p);
      ReadTextIsExactIff(files[p]);
    }
  }

  /** Convergence in one round: after _apply the wrapper set on disk is the served set if and only if no
      served name ends in a newline, no served text has a carriage return, and no rename of an unserved
      file was refused. */
  lemma ConvergesIff(disk: Disk, files: Files, stuck: set<Path>, disk': Disk)
    requires (forall rel :: rel in files ==> Allowed(rel)) && Applied(disk, files, stuck, disk')
    ensures WrapperSet(disk') == files <==> Readable(files) && Extras(disk, files) !! stuck
  {
    var w := WrapperSet(disk');
    forall p
      ensures InWrapper(w, disk, files, stuck, p)
    {
      WrapperPoint(disk, files, stuck, disk', p);
    }
    if w == files {
      forall rel | rel in files
        ensures !EndsWith(rel, "\n") && '\r' !in files[rel]
      {
        assert InWrapper(w, disk, files, stuck, rel);
      }
      forall p | p in Extras(disk, files)
        ensures p !in stuck
      {
        assert InWrapper(w, disk, files, stuck, p);
      }
    }
    if Readable(files) && Extras(disk, files) !! stuck {
      forall p
        ensures p in w <==> p in files
        ensures p in files ==> w[p] == files[p]
      {
        assert InWrapper(w, disk, files, stuck, p);
      }
      assert w == files;
    }
  }

  /** When it converges, the version is the served one, and another run, whatever the server answers to
      it, touches nothing until the server's version changes. */
  lemma ConvergedIsQuiet(hash: string -> string, utf8: Text -> bool, disk: Disk, files: Files, stuck: set<Path>, disk': Disk, again: Option<Payload>)
    requires (forall rel :: rel in files ==> Allowed(rel)) && Applied(disk, files, stuck, disk')
    requires Readable(files) && Extras(disk, files) !! stuck
    ensures Version(hash, WrapperSet(disk')) == Version(hash, files)
    ensures !WillApply(hash, utf8, disk', true, Some(Version(hash, files)), again)
  {
    ConvergesIff(disk, files, stuck, disk');
  }

  lemma StillReads(utf8: Text -> bool, disk: Disk, files: Files, stuck: set<Path>, disk': Disk)
    requires (forall rel :: rel in files ==> Allowed(rel)) && Applied(disk, files, stuck, disk')
    requires AllRead(utf8, disk) && AllEncode(utf8, files)
    ensures AllRead(utf8, disk')
  {
    forall p | p in disk' && OnDisk(p)
      ensures utf8(disk'[p])
    {
      AppliedWrapper(disk, files, stuck, disk', p);
      assert At(disk, files, Extras(disk, files) - stuck, disk', p);
      WrapperEnds(p);
      SourceHasNoSiblingEnd(p);
    }
  }

  /** An install with a wrapper file that is not UTF-8 is never updated, whatever is served. */
  lemma UnreadableIsNeverUpdated(hash: string -> string, utf8: Text -> bool, disk: Disk, p: Path, served: Option<string>, payload: Option<Payload>)
    requires p in disk && OnDisk(p) && !utf8(disk[p])
    ensures !WillApply(hash, utf8, disk, true, served, payload)
  {
  }

  /** When it does not, the next run applies the same payload again, as far as the hash tells the two
      sets' streams apart. */
  lemma UnconvergedRepeats(hash: string -> string, utf8: Text -> bool, disk: Disk, files: Files, stuck: set<Path>, disk': Disk)
    requires (forall rel :: rel in files ==> Allowed(rel)) && Applied(disk, files, stuck, disk')
    requires !(Readable(files) && Extras(disk, files) !! stuck) && NoNul(files) && NoNul(WrapperSet(disk'))
    ensures var m, v := WrapperSet(disk'), Version(hash, files);
            v != "" && AllRead(utf8, disk) && AllEncode(utf8, files) && (hash(Stream(Listing(m))) == hash(Stream(Listing(files))) ==> Stream(Listing(m)) == Stream(Listing(files)))
            ==> WillApply(hash, utf8, disk', true, Some(v), Some(Payload(v, files)))
  {
    ConvergesIff(disk, files, stuck, disk');
    var m := WrapperSet(disk');
    if AllRead(utf8, disk) && AllEncode(utf8, files) {
      StillReads(utf8, disk, files, stuck, disk');
    }
    if hash(Stream(Listing(m))) == hash(Stream(Listing(files))) ==> Stream(Listing(m)) == Stream(Listing(files)) {
      VersionTellsApart(hash, m, files);
    }
  }

  /** Nothing else on the disk changes: a path that is neither served, nor an unserved wrapper file, nor
      a .bak or .new sibling of one, is as it was; and what was replaced or retired is kept as .bak. */
  lemma OnlyTheWrapperChanges(disk: Disk, files: Files, stuck: set<Path>, disk': Disk, p: Path)
    requires (forall rel :: rel in files ==> Allowed(rel)) && Applied(disk, files, stuck, disk')
    ensures p !in files && p !in Extras(disk, files)
            && (forall r :: r in files || r in Extras(disk, files) ==> p != r + ".bak" && p != r + ".new")
            ==> Get(disk', p) == Get(disk, p)
    ensures p in disk && (p in files || p in Extras(disk, files) - stuck) ==> Get(disk', p + ".bak") == Some(disk[p])
    ensures p in files ==> Get(disk', p + ".new") == None
  {
    assert At(disk, files, Extras(disk, files) - stuck, disk', p);
    assert At(disk, files, Extras(disk, files) - stuck, disk', p + ".bak");
    assert At(disk, files, Extras(disk, files) - stuck, disk', p + ".new");
    SiblingForm(p);
    SiblingsAreOutside(p);
    forall r | r in files || r in Extras(disk, files)
      ensures SourceEnd(r)
    {
      WrapperEnds(r);
    }
    if SourceEnd(p) {
      SourceHasNoSiblingEnd(p);
    }
  }

  // ----------------------------------------------------------------------------------------------
  // Many starts
  // ----------------------------------------------------------------------------------------------

  /** One start of the wrapper: what the install is, what the server answers, and which renames the system
      refuses. */
  datatype Start = Start(managed: bool, served: Option<string>, payload: Option<Payload>, stuck: set<Path>)

  /** The start turns disk into disk'. */
  ghost predicate Boots(hash: string -> string, utf8: Text -> bool, disk: Disk, s: Start, disk': Disk) {
    if WillApply(hash, utf8, disk, s.managed, s.served, s.payload)
    then Applied(disk, s.payload.value.files, s.stuck, disk')
    else disk' == disk
  }

  ghost predicate BootRun(hash: string -> string, utf8: Text -> bool, disks: seq<Disk>, starts: seq<Start>) {
    |disks| == |starts| + 1 && forall k :: 0 <= k < |starts| ==> Boots(hash, utf8, disks[k], starts[k], disks[k + 1])
  }

  /** A path that is no wrapper file, nor the .bak or .new of one. */
  ghost predicate Outside(p: Path) {
    !OnDisk(p) && !Allowed(p) && forall r :: OnDisk(r) || Allowed(r) ==> p != r + ".bak" && p != r + ".new"
  }

  /** Over any number of starts, and whatever any server answers: no path outside the wrapper ever changes, and
      without a start as a managed install nothing does. */
  lemma {:induction false} OutsideNeverChanges(hash: string -> string, utf8: Text -> bool, disks: seq<Disk>, starts: seq<Start>, p: Path)
    requires BootRun(hash, utf8, disks, starts)
    ensures Outside(p) ==> Get(disks[|starts|], p) == Get(disks[0], p)
    ensures (forall s :: s in starts ==> !s.managed) ==> disks[|starts|] == disks[0]
    decreases |starts|
  {
    if starts != [] {
      var n := |starts| - 1;
      assert Boots(hash, utf8, disks[n], starts[n], disks[n + 1]);
      OutsideNeverChanges(hash, utf8, disks[..n + 1], starts[..n], p);
      if WillApply(hash, utf8, disks[n], starts[n].managed, starts[n].served, starts[n].payload) {
        assert starts[n] in starts;
        OnlyTheWrapperChanges(disks[n], starts[n].payload.value.files, starts[n].stuck, disks[n + 1], p);
      }
    }
  }

  /** A start that changes anything was announced a version other than the installed one, and was given a set
      of allowed files with just that version; and if these converge, it is the installed version from
      then on, and the next start that is announced it changes nothing. */
  lemma UpdateReachesTheServedVersion(hash: string -> string, utf8: Text -> bool, disk: Disk, s: Start, disk': Disk, next: Start, disk'': Disk)
    requires Boots(hash, utf8, disk, s, disk') && disk' != disk && Boots(hash, utf8, disk', next, disk'') && next.served == s.served
    ensures s.managed && s.served.Some? && s.served.value != Version(hash, WrapperSet(disk)) && s.payload.Some?
    ensures var files := s.payload.value.files;
            && (forall rel :: rel in files ==> Allowed(rel)) && Version(hash, files) == s.served.value
            && (Readable(files) && Extras(disk, files) !! s.stuck ==> Version(hash, WrapperSet(disk')) == s.served.value && disk'' == disk')
  {
    var files := s.payload.value.files;
    if Readable(files) && Extras(disk, files) !! s.stuck {
      ConvergedIsQuiet(hash, utf8, disk, files, s.stuck, disk', next.payload);
    }
  }

  /** The allow-list does let a name through that never counts as installed, so such a served set is
      downloaded again on every start. */
  lemma NewlineNameIsAllowed()
    ensures Allowed("mcp/x.py\n") && !OnDisk("mcp/x.py\n")
  {
    var n := "mcp/x.py\n"[4..];
    assert n == "x.py\n" && n[4..] == "\n" && n[..4] == "x.py" && "x.py"[1..] == ".py";
    assert EndsWith(n, "\n") && n[..|n| - 1] == "x.py" && EndsWith("x.py", ".py") && WordChar("x.py"[0]);
    assert ModuleName(n);
    assert "mcp/x.py\n"[..4] == "mcp/" && "mcp/x.py\n"[8..] == "\n";
    AllowedIsOnDiskIff("mcp/x.py\n");
  }
}
