/** Text archives of internal/txtar/archive.go: Format and Parse.  Characters are ASCII. */
module Txtar {
  import opened Strings

  datatype File = File(name: string, data: string)

  datatype Archive = Archive(comment: string, files: seq<File>)

  // ---------------------------------------------------------------- lines

  predicate Ends(s: string) { s == "" || s[|s| - 1] == '\n' }

  function FixNL(s: string): (r: string)
    ensures Ends(r)
  {
    if Ends(s) then s else s + "\n"
  }

  /** The place of the first newline, or the length. */
  function Newline(s: string): (n: nat)
    ensures n <= |s| && (forall i :: 0 <= i < n ==> s[i] != '\n') && (n < |s| ==> s[n] == '\n')
  {
    if s == "" || s[0] == '\n' then 0 else 1 + Newline(s[1..])
  }

  predicate Space(c: char) { c == ' ' || '\t' <= c <= '\r' }

  /** strings.TrimSpace */
  function Trim(s: string): (r: string)
    ensures |r| <= |s| && (forall c :: c in r ==> c in s)
    ensures Trimmed(r)
  {
    if s == "" then ""
    else if Space(s[0]) then Trim(s[1..])
    else if Space(s[|s| - 1]) then Trim(s[..|s| - 1])
    else s
  }

  predicate Trimmed(s: string) { s != "" ==> !Space(s[0]) && !Space(s[|s| - 1]) }

  /** The name in a marker line; empty if the line is none. */
  function NameIn(line: string): (n: string)
    ensures Trimmed(n) && forall c :: c in n ==> c in line
  {
    if At(line, 0, "-- ") && |line| >= 6 && At(line, |line| - 3, " --") then Trim(line[3..|line| - 3]) else ""
  }

  /** isMarker */
  function IsMarker(s: string): (string, string)
  {
    var n := Newline(s);
    (NameIn(s[..n]), if n < |s| then s[n + 1..] else "")
  }

  /** A marker line starts at i. */
  predicate MarkerAt(s: string, i: nat)
    requires i <= |s|
  {
    (i == 0 || s[i - 1] == '\n') && IsMarker(s[i..]).0 != ""
  }

  function FirstMarker(s: string, i: nat): (k: int)
    requires i <= |s|
    ensures -1 <= k <= |s|
    decreases |s| - i
  {
    if MarkerAt(s, i) then i else if i == |s| then -1 else FirstMarker(s, i + 1)
  }

  lemma {:induction false} FirstMarkerIs(s: string, i: nat)
    requires i <= |s|
    ensures var k := FirstMarker(s, i);
      && (k == -1 ==> forall j :: i <= j <= |s| ==> !MarkerAt(s, j))
      && (k >= 0 ==> i <= k && MarkerAt(s, k) && forall j :: i <= j < k ==> !MarkerAt(s, j))
    decreases |s| - i
  {
    hide MarkerAt;
    if !MarkerAt(s, i) && i < |s| {
      FirstMarkerIs(s, i + 1);
    }
  }

  lemma MarkerHead(s: string)
    requires IsMarker(s).0 != ""
    ensures At(s, 0, "-- ")
  {
    var line := s[..Newline(s)];
    assert At(line, 0, "-- ");
    assert s[0..3] == line[0..3];
  }

  /** What comes before the first marker, its name, and what comes after its line. */
  function Marker(s: string): (string, string, string)
  {
    var k := FirstMarker(s, 0);
    if k == -1 then (FixNL(s), "", "") else (s[..k], IsMarker(s[k..]).0, IsMarker(s[k..]).1)
  }

  /** findFileMarker: looks at every line that starts with a dash. */
  method FindFileMarker(data: string) returns (before: string, name: string, after: string)
    ensures (before, name, after) == Marker(data)
  {
    hide IsMarker, MarkerAt, Index;
    var i := 0;
    while true
      invariant i <= |data| && (i == 0 || data[i - 1] == '\n')
      invariant forall j :: 0 <= j < i ==> !MarkerAt(data, j)
      decreases |data| - i
    {
      name, after := IsMarker(data[i..]).0, IsMarker(data[i..]).1;
      MarkerHere(data, i);
      if name != "" {
        OnlyFirst(data, i);
        return data[..i], name, after;
      }
      var j := Index(data[i..], "\n-- ");
      NoMarkerBefore(data, i, j);
      if j < 0 {
        NoneFirst(data);
        return FixNL(data), "", "";
      }
      i := i + j + 1;
    }
  }

  lemma MarkerHere(s: string, i: nat)
    requires i <= |s| && (i == 0 || s[i - 1] == '\n')
    ensures MarkerAt(s, i) <==> IsMarker(s[i..]).0 != ""
  {
    hide IsMarker;
  }

  lemma OnlyFirst(s: string, k: nat)
    requires k <= |s| && MarkerAt(s, k) && forall j :: 0 <= j < k ==> !MarkerAt(s, j)
    ensures FirstMarker(s, 0) == k
  {
    FirstMarkerIs(s, 0);
    hide MarkerAt;
  }

  lemma NoneFirst(s: string)
    requires forall j :: 0 <= j <= |s| ==> !MarkerAt(s, j)
    ensures FirstMarker(s, 0) == -1
  {
    FirstMarkerIs(s, 0);
    hide MarkerAt;
  }

  /** Between i and the next newline with a dash behind it no marker starts. */
  lemma NoMarkerBefore(s: string, i: nat, j: int)
    requires i <= |s| && !MarkerAt(s, i) && j == Index(s[i..], "\n-- ")
    ensures j >= 0 ==> i + j + 1 <= |s| && s[i + j] == '\n'
    ensures forall q :: i <= q <= (if j < 0 then |s| else i + j) ==> !MarkerAt(s, q)
  {
    hide MarkerAt, Index, At;
    if j >= 0 {
      NewlineAt(s, i, j);
    }
    forall q | i < q <= (if j < 0 then |s| else i + j)
      ensures !MarkerAt(s, q)
    {
      if MarkerAt(s, q) {
        MarkerBehind(s, i, q);
      }
    }
  }

  lemma NewlineAt(s: string, i: nat, j: nat)
    requires i <= |s| && At(s[i..], j, "\n-- ")
    ensures i + j + 1 <= |s| && s[i + j] == '\n'
  {
    var rest := s[i..];
    assert rest[j] == (rest[j..j + 4])[0];
  }

  lemma MarkerBehind(s: string, i: nat, q: nat)
    requires i < q <= |s| && MarkerAt(s, q)
    ensures At(s[i..], q - 1 - i, "\n-- ")
  {
    MarkerHead(s[q..]);
    hide IsMarker;
    var c, tail := s[q - 1], s[q..];
    hide MarkerAt;
    BehindNewline(s, i, q, c, tail);
  }

  lemma BehindNewline(s: string, i: nat, q: nat, c: char, tail: string)
    requires i < q <= |s| && s[q - 1] == c == '\n' && s[q..] == tail && At(tail, 0, "-- ")
    ensures At(s[i..], q - 1 - i, "\n-- ")
  {
    var p, rest := q - 1 - i, s[i..];
    assert tail[0..3] == "-- ";
    assert [c] + tail[0..3] == "\n-- ";
    assert rest[p..p + 4] == [c] + tail[0..3];
  }

  // ---------------------------------------------------------------- parse and format

  function ParseFiles(name: string, data: string): seq<File>
    decreases |data|, |name|
  {
    if name == "" then []
    else
      var m := Marker(data);
      MarkerShorter(data);
      [File(name, m.0)] + ParseFiles(m.1, m.2)
  }

  lemma MarkerShorter(s: string)
    ensures |Marker(s).2| < |s| || (Marker(s).1 == "" && Marker(s).2 == "")
  {
    var k := FirstMarker(s, 0);
    FirstMarkerIs(s, 0);
    if k >= 0 {
      MarkerHead(s[k..]);
    }
  }

  function Parsed(data: string): Archive
  {
    var m := Marker(data);
    Archive(m.0, ParseFiles(m.1, m.2))
  }

  method Parse(data: string) returns (a: Archive)
    ensures a == Parsed(data)
  {
    hide Marker, ParseFiles;
    var comment, name, rest := FindFileMarker(data);
    var files: seq<File> := [];
    ghost var all := ParseFiles(name, rest);
    while name != ""
      invariant all == files + ParseFiles(name, rest)
      decreases |rest|, |name|
    {
      MarkerShorter(rest);
      FilesNext(name, rest);
      var f := File(name, "");
      var body, next, after := FindFileMarker(rest);
      f := f.(data := body);
      files := files + [f];
      name, rest := next, after;
    }
    FilesEnd(rest);
    a := Archive(comment, files);
  }

  lemma FilesNext(name: string, data: string)
    requires name != ""
    ensures ParseFiles(name, data) == [File(name, Marker(data).0)] + ParseFiles(Marker(data).1, Marker(data).2)
  {
    hide Marker;
  }

  lemma FilesEnd(data: string)
    ensures ParseFiles("", data) == []
  {
  }

  function MarkerLine(name: string): string { "-- " + name + " --\n" }

  function FormatFiles(fs: seq<File>): string
  {
    if fs == [] then "" else MarkerLine(fs[0].name) + FixNL(fs[0].data) + FormatFiles(fs[1..])
  }

  function Formatted(a: Archive): string { FixNL(a.comment) + FormatFiles(a.files) }

  method Format(a: Archive) returns (buf: string)
    ensures buf == Formatted(a)
  {
    buf := FixNL(a.comment);
    for i := 0 to |a.files|
      invariant Formatted(a) == buf + FormatFiles(a.files[i..])
    {
      var f := a.files[i];
      assert a.files[i..][1..] == a.files[i + 1..];
      buf := buf + MarkerLine(f.name);
      buf := buf + FixNL(f.data);
    }
  }

  // ---------------------------------------------------------------- the round trip

  /** Empty or ended by a newline, and no line is a marker. */
  ghost predicate Clean(s: string) { Ends(s) && forall i :: 0 <= i <= |s| ==> !MarkerAt(s, i) }

  ghost predicate GoodName(n: string) { n != "" && Trimmed(n) && '\n' !in n }

  ghost predicate WellFormed(a: Archive)
  {
    Clean(a.comment) && forall i :: 0 <= i < |a.files| ==> GoodName(a.files[i].name) && Clean(a.files[i].data)
  }

  lemma {:induction false} NewlineIs(s: string, n: nat)
    requires n <= |s| && (forall i :: 0 <= i < n ==> s[i] != '\n') && (n < |s| ==> s[n] == '\n')
    ensures Newline(s) == n
  {
    var m := Newline(s);
  }

  /** A line that ends within s is not changed by what follows s. */
  lemma SameLine(s: string, t: string, i: nat)
    requires i < |s| && Ends(s)
    ensures IsMarker((s + t)[i..]).0 == IsMarker(s[i..]).0
  {
    var n := Newline(s[i..]);
    assert s[i..][|s| - 1 - i] == '\n';
    var u := (s + t)[i..];
    assert forall j :: 0 <= j <= n ==> u[j] == s[i..][j];
    NewlineIs(u, n);
    assert u[..n] == s[i..][..n];
    hide NameIn;
  }

  lemma MarkerKept(s: string, t: string, i: nat)
    requires i < |s| && Ends(s)
    ensures MarkerAt(s + t, i) <==> MarkerAt(s, i)
  {
    SameLine(s, t, i);
    hide IsMarker;
    assert i > 0 ==> (s + t)[i - 1] == s[i - 1];
  }

  /** The marker line of a name is read back, and what follows it. */
  lemma LineRead(n: string, rest: string)
    requires GoodName(n)
    ensures IsMarker(MarkerLine(n) + rest) == (n, rest)
  {
    var line := "-- " + n + " --";
    var s := MarkerLine(n) + rest;
    assert s == line + ("\n" + rest);
    LineIs(line, rest);
    NameRead(n);
    hide NameIn;
  }

  lemma LineIs(line: string, rest: string)
    requires '\n' !in line
    ensures var s := line + ("\n" + rest); Newline(s) == |line| && s[..|line|] == line && s[|line| + 1..] == rest
  {
    var s := line + ("\n" + rest);
    assert s[|line|] == '\n';
    NewlineIs(s, |line|);
  }

  lemma NameRead(n: string)
    requires GoodName(n)
    ensures NameIn("-- " + n + " --") == n && '\n' !in "-- " + n + " --"
  {
    var line := "-- " + n + " --";
    assert line[0..3] == "-- " && line[|line| - 3..|line|] == " --" && line[3..|line| - 3] == n;
    assert Trim(n) == n;
  }

  lemma MarkerOf(body: string, n: string, rest: string)
    requires Clean(body) && GoodName(n)
    ensures Marker(body + (MarkerLine(n) + rest)) == (body, n, rest)
  {
    var s, tail := body + (MarkerLine(n) + rest), MarkerLine(n) + rest;
    LineRead(n, rest);
    assert s[|body|..] == tail && s[..|body|] == body;
    forall j | 0 <= j < |body|
      ensures !MarkerAt(s, j)
    {
      MarkerKept(body, tail, j);
    }
    assert |body| > 0 ==> s[|body| - 1] == body[|body| - 1];
    assert MarkerAt(s, |body|);
    OnlyFirst(s, |body|);
    hide IsMarker, MarkerAt, MarkerLine;
  }

  lemma MarkerNone(body: string)
    requires Clean(body)
    ensures Marker(body) == (body, "", "")
  {
    NoneFirst(body);
    hide MarkerAt, IsMarker;
  }

  /** One content with the files behind it. */
  lemma MarkerFirst(body: string, fs: seq<File>)
    requires Clean(body) && (fs != [] ==> GoodName(fs[0].name))
    ensures Marker(FixNL(body) + FormatFiles(fs))
      == if fs == [] then (body, "", "") else (body, fs[0].name, FixNL(fs[0].data) + FormatFiles(fs[1..]))
  {
    hide Marker, MarkerLine;
    if fs == [] {
      assert body + "" == body;
      MarkerNone(body);
    } else {
      var rest := FixNL(fs[0].data) + FormatFiles(fs[1..]);
      Assoc(MarkerLine(fs[0].name), FixNL(fs[0].data), FormatFiles(fs[1..]));
      MarkerOf(body, fs[0].name, rest);
    }
  }

  lemma Assoc(a: string, b: string, c: string)
    ensures a + b + c == a + (b + c)
  {
  }

  lemma {:induction false} FilesBack(n: string, body: string, fs: seq<File>)
    requires GoodName(n) && Clean(body) && forall i :: 0 <= i < |fs| ==> GoodName(fs[i].name) && Clean(fs[i].data)
    ensures ParseFiles(n, FixNL(body) + FormatFiles(fs)) == [File(n, body)] + fs
    decreases |fs|
  {
    hide Clean, Marker, FormatFiles;
    MarkerFirst(body, fs);
    NoFiles();
    if fs != [] {
      FilesBack(fs[0].name, fs[0].data, fs[1..]);
      assert [fs[0]] + fs[1..] == fs;
    }
  }

  lemma NoFiles()
    ensures ParseFiles("", "") == []
  {
  }

  lemma ParseFormat(a: Archive)
    requires WellFormed(a)
    ensures Parsed(Formatted(a)) == a
  {
    hide Clean, Marker, FormatFiles;
    MarkerFirst(a.comment, a.files);
    NoFiles();
    if a.files != [] {
      FilesBack(a.files[0].name, a.files[0].data, a.files[1..]);
      assert [a.files[0]] + a.files[1..] == a.files;
    }
  }

  /** Up to a marker, contents are clean. */
  lemma BeforeClean(s: string)
    ensures Clean(Marker(s).0) && (Marker(s).1 != "" ==> GoodName(Marker(s).1))
  {
    var k := FirstMarker(s, 0);
    FirstMarkerIs(s, 0);
    if k == -1 {
      FixedClean(s);
    } else {
      var before := s[..k];
      assert before + s[k..] == s;
      forall j | 0 <= j <= k
        ensures !MarkerAt(before, j)
      {
        if j < k {
          MarkerKept(before, s[k..], j);
        } else {
          NoLine(before);
        }
      }
      NameClean(s[k..]);
    }
  }

  lemma NoLine(s: string)
    ensures !MarkerAt(s, |s|)
  {
    assert s[|s|..] == "";
  }

  lemma NameClean(s: string)
    ensures IsMarker(s).0 != "" ==> GoodName(IsMarker(s).0)
  {
    hide NameIn;
    assert '\n' !in s[..Newline(s)];
  }

  lemma FixedClean(s: string)
    requires forall i :: 0 <= i <= |s| ==> !MarkerAt(s, i)
    ensures Clean(FixNL(s))
  {
    if !Ends(s) {
      var t := s + "\n";
      forall j | 0 <= j <= |t|
        ensures !MarkerAt(t, j)
      {
        if j < |s| {
          LastLine(s, j);
        } else if j == |s| {
          assert t[j - 1] == s[|s| - 1];
        } else {
          NoLine(t);
        }
      }
    }
  }

  lemma LastLine(s: string, j: nat)
    requires j < |s|
    ensures MarkerAt(s + "\n", j) <==> MarkerAt(s, j)
  {
    var u, v := (s + "\n")[j..], s[j..];
    assert u == v + "\n";
    var n := Newline(v);
    NewlineIs(u, n);
    assert u[..n] == v[..n];
    assert j > 0 ==> (s + "\n")[j - 1] == s[j - 1];
    hide NameIn;
  }

  lemma {:induction false} FilesClean(n: string, s: string)
    requires n != "" ==> GoodName(n)
    ensures forall i :: 0 <= i < |ParseFiles(n, s)| ==> GoodName(ParseFiles(n, s)[i].name) && Clean(ParseFiles(n, s)[i].data)
    decreases |s|, |n|
  {
    if n != "" {
      MarkerShorter(s);
      BeforeClean(s);
      hide Clean, GoodName, Marker;
      FilesClean(Marker(s).1, Marker(s).2);
    }
  }

  /** Formatting and parsing gives an archive back if and only if it is well formed. */
  lemma ArchiveExact(a: Archive)
    ensures Parsed(Formatted(a)) == a <==> WellFormed(a)
  {
    if WellFormed(a) {
      ParseFormat(a);
    }
    ParsedWell(Formatted(a));
  }

  /** What is parsed from any text is well formed, and so is kept from then on. */
  lemma ParsedWell(s: string)
    ensures WellFormed(Parsed(s)) && Parsed(Formatted(Parsed(s))) == Parsed(s)
  {
    BeforeClean(s);
    FilesClean(Marker(s).1, Marker(s).2);
    hide Clean, GoodName, Marker, ParseFiles;
    ParseFormat(Parsed(s));
  }

  /** A content without a newline at its end gets one. */
  lemma NewlineAdded()
    ensures Parsed(Formatted(Archive("x", []))) == Archive("x\n", [])
  {
    assert Formatted(Archive("x", [])) == "x\n";
    assert Formatted(Archive("x\n", [])) == "x\n";
    NoMarkerX();
    ParseFormat(Archive("x\n", []));
  }

  lemma NoMarkerX()
    ensures Clean("x\n")
  {
    var s := "x\n";
    forall i | 0 <= i <= |s|
      ensures !MarkerAt(s, i)
    {
      if i == 0 {
        assert s[0..] == s;
        assert NameIn(s[..1]) == "";
        NewlineIs(s, 1);
      } else if i == 2 {
        NoLine(s);
      }
    }
  }

  method FormatThenParse(a: Archive) returns (b: Archive)
    ensures b == a <==> WellFormed(a)
  {
    var buf := Format(a);
    b := Parse(buf);
    ArchiveExact(a);
  }

  /** A comment and a file, both without a newline at their end. */
  method OneFile() returns (buf: string)
    ensures buf == "c\n-- a --\nx\n"
  {
    FileIs(File("a", "x"));
    MarkerIs();
    hide *;
    buf := Format(Archive("c", [File("a", "x")]));
  }

  lemma FileIs(f: File)
    ensures Formatted(Archive("c", [f])) == FixNL("c") + (MarkerLine(f.name) + FixNL(f.data))
  {
    assert [f][1..] == [] && FormatFiles([]) == "";
    assert FormatFiles([f]) == MarkerLine(f.name) + FixNL(f.data) + "";
    hide FixNL, MarkerLine;
  }

  lemma MarkerIs()
    ensures FixNL("c") + (MarkerLine("a") + FixNL("x")) == "c\n-- a --\nx\n"
  {
    assert FixNL("c") == "c\n" && FixNL("x") == "x\n" && MarkerLine("a") == "-- a --\n";
    hide FixNL, MarkerLine;
    assert "-- a --\n" + "x\n" == "-- a --\nx\n";
  }
}
