/** The text that Diff of internal/diff/diff.go writes, and how it is read back: a patch that takes the
    text apart finds the hunks, and so both texts. */
module DiffText {
  import opened Wrappers
  import opened Anchors
  import opened Hunks
  import opened Diff

  // ---------------------------------------------------------------- numbers

  function Digit(d: nat): char
    requires d < 10
  {
    '0' + d as char
  }

  predicate IsDigit(c: char) { '0' <= c <= '9' }

  /** %d */
  function Decimal(n: nat): (s: string)
    ensures s != "" && forall c :: c in s ==> IsDigit(c)
  {
    if n < 10 then [Digit(n)] else Decimal(n / 10) + [Digit(n % 10)]
  }

  /** How many digits s starts with. */
  function Digits(s: string): (k: nat)
    ensures k <= |s|
  {
    if s == "" || !IsDigit(s[0]) then 0 else 1 + Digits(s[1..])
  }

  function Value(s: string): nat
  {
    if s == "" then 0 else Value(s[..|s| - 1]) * 10 + Worth(s[|s| - 1])
  }

  function Worth(c: char): nat { if IsDigit(c) then c as int - '0' as int else 0 }

  function Number(s: string): (nat, string)
  {
    (Value(s[..Digits(s)]), s[Digits(s)..])
  }

  lemma {:induction false} ValueDecimal(n: nat)
    ensures Value(Decimal(n)) == n
  {
    var s := Decimal(n);
    if n >= 10 {
      ValueDecimal(n / 10);
      assert s[..|s| - 1] == Decimal(n / 10);
    } else {
      assert s[..|s| - 1] == "";
    }
  }

  lemma {:induction false} DigitsAll(a: string, rest: string)
    requires (forall c :: c in a ==> IsDigit(c)) && (rest != "" ==> !IsDigit(rest[0]))
    ensures Digits(a + rest) == |a|
  {
    if a == "" {
      assert a + rest == rest;
    } else {
      assert (a + rest)[1..] == a[1..] + rest && a[0] in a;
      DigitsAll(a[1..], rest);
    }
  }

  lemma NumberRead(n: nat, rest: string)
    requires rest != "" ==> !IsDigit(rest[0])
    ensures Number(Decimal(n) + rest) == (n, rest)
  {
    DigitsAll(Decimal(n), rest);
    ValueDecimal(n);
    var s := Decimal(n) + rest;
    assert s[..|Decimal(n)|] == Decimal(n) && s[|Decimal(n)|..] == rest;
    hide Decimal, Value, Digits;
  }

  // ---------------------------------------------------------------- the heading of a hunk

  function Strip(s: string, lead: string): Option<string>
  {
    if lead <= s then Some(s[|lead|..]) else None
  }

  lemma Stripped(lead: string, rest: string)
    ensures Strip(lead + rest, lead) == Some(rest)
  {
  }

  function HeadingBefore(x: nat, nx: nat, y: nat, ny: nat, rest: string): string
  {
    "@@ -" + (Decimal(x) + ("," + (Decimal(nx) + (" +" + (Decimal(y) + ("," + (Decimal(ny) + (" @@\n" + rest))))))))
  }

  function Heading(h: Hunk): string
  {
    "@@ -" + Decimal(h.x) + "," + Decimal(h.nx) + " +" + Decimal(h.y) + "," + Decimal(h.ny) + " @@\n"
  }

  lemma Joined(a: string, b: string, c: string)
    ensures (a + b) + c == a + (b + c)
  {
  }

  lemma HeadingIs(h: Hunk, rest: string)
    ensures Heading(h) + rest == HeadingBefore(h.x, h.nx, h.y, h.ny, rest)
  {
    var a, b, c, d := Decimal(h.x), Decimal(h.nx), Decimal(h.y), Decimal(h.ny);
    hide Decimal;
    Joined("@@ -" + a + "," + b + " +" + c + "," + d, " @@\n", rest);
    Joined("@@ -" + a + "," + b + " +" + c + ",", d, " @@\n" + rest);
    Joined("@@ -" + a + "," + b + " +" + c, ",", d + (" @@\n" + rest));
    Joined("@@ -" + a + "," + b + " +", c, "," + (d + (" @@\n" + rest)));
    Joined("@@ -" + a + "," + b, " +", c + ("," + (d + (" @@\n" + rest))));
    Joined("@@ -" + a + ",", b, " +" + (c + ("," + (d + (" @@\n" + rest)))));
    Joined("@@ -" + a, ",", b + (" +" + (c + ("," + (d + (" @@\n" + rest))))));
    Joined("@@ -", a, "," + (b + (" +" + (c + ("," + (d + (" @@\n" + rest)))))));
  }

  /** A literal, and the number behind it. */
  function Field(s: string, lead: string): Option<(nat, string)>
  {
    var t := Strip(s, lead);
    if t.None? then None else Some(Number(t.value))
  }

  lemma FieldRead(lead: string, n: nat, rest: string)
    requires rest != "" ==> !IsDigit(rest[0])
    ensures Field(lead + (Decimal(n) + rest), lead) == Some((n, rest))
  {
    Stripped(lead, Decimal(n) + rest);
    NumberRead(n, rest);
    hide Number, Decimal, Strip;
  }

  /** The four numbers, and what comes behind the heading. */
  function ReadHeading(s: string): Option<(Hunk, string)>
  {
    var x := Field(s, "@@ -");
    if x.None? then None
    else
      var nx := Field(x.value.1, ",");
      if nx.None? then None
      else
        var y := Field(nx.value.1, " +");
        if y.None? then None
        else
          var ny := Field(y.value.1, ",");
          if ny.None? then None
          else
            var rest := Strip(ny.value.1, " @@\n");
            if rest.None? then None else Some((Hunk(x.value.0, nx.value.0, y.value.0, ny.value.0, []), rest.value))
  }

  lemma HeadingRead(h: Hunk, rest: string)
    ensures ReadHeading(Heading(h) + rest) == Some((h.(body := []), rest))
  {
    HeadingIs(h, rest);
    hide Heading, Decimal, Number, Strip, Field;
    var end := " @@\n" + rest;
    assert end[0] == ' ';
    Stripped(" @@\n", rest);
    FieldRead(",", h.ny, end);
    var r3 := "," + (Decimal(h.ny) + end);
    assert r3[0] == ',';
    FieldRead(" +", h.y, r3);
    var r2 := " +" + (Decimal(h.y) + r3);
    assert r2[0] == ' ';
    FieldRead(",", h.nx, r2);
    var r1 := "," + (Decimal(h.nx) + r2);
    assert r1[0] == ',';
    FieldRead("@@ -", h.x, r1);
  }

  // ---------------------------------------------------------------- the lines of a hunk

  /** One line, with the note about a missing newline that may belong to it. */
  function LineLength(s: string): (n: nat)
    ensures n <= |s| && (s != "" ==> n > 0)
  {
    var i := FirstNewline(s);
    if i == |s| then i
    else if i + 1 == |s| || s[i + 1] != '\\' then i + 1
    else
      var j := FirstNewline(s[i + 1..]);
      if i + 1 + j == |s| then |s| else i + 1 + j + 1
  }

  /** The line ends where LineLength says, whatever follows that is not such a note. */
  ghost predicate Whole(l: string)
  {
    var i := FirstNewline(l);
    && i < |l|
    && (i + 1 == |l| || (l[i + 1] == '\\' && i + 1 + FirstNewline(l[i + 1..]) + 1 == |l|))
  }

  lemma {:induction false} NewlineAt(s: string, i: nat)
    requires i < |s| && s[i] == '\n' && '\n' !in s[..i]
    ensures FirstNewline(s) == i
  {
    var k := FirstNewline(s);
    assert forall q :: 0 <= q < i ==> s[..i][q] == s[q];
    assert forall q :: 0 <= q < k ==> s[..k][q] == s[q];
  }

  lemma NewlineKept(l: string, rest: string)
    requires FirstNewline(l) < |l|
    ensures FirstNewline(l + rest) == FirstNewline(l)
  {
    var i := FirstNewline(l);
    assert (l + rest)[..i] == l[..i];
    NewlineAt(l + rest, i);
  }

  lemma WholeRead(l: string, rest: string)
    requires Whole(l) && (rest != "" ==> rest[0] != '\\')
    ensures LineLength(l + rest) == |l|
  {
    var i := FirstNewline(l);
    NewlineKept(l, rest);
    if i + 1 < |l| {
      NewlineKept(l[i + 1..], rest);
      assert (l + rest)[i + 1..] == l[i + 1..] + rest;
    }
  }

  lemma MarkedWhole(c: char, l: string)
    requires Whole(l) && c != '\n'
    ensures Whole([c] + l)
  {
    var i := FirstNewline(l);
    var m := [c] + l;
    assert m[..i + 1] == [c] + l[..i];
    NewlineAt(m, i + 1);
    assert m[i + 2..] == l[i + 1..];
  }

  lemma {:induction false} SplitWhole(t: string)
    ensures var ls := SplitAfter(t);
      (forall k :: 0 <= k < |ls| - 1 ==> Whole(ls[k])) && '\n' !in ls[|ls| - 1]
    decreases |t|
  {
    var i := FirstNewline(t);
    if i < |t| {
      SplitWhole(t[i + 1..]);
      var l := t[..i + 1];
      assert l[..i] == t[..i];
      NewlineAt(l, i);
      var ls := SplitAfter(t);
      assert forall k :: 1 <= k < |ls| ==> ls[k] == SplitAfter(t[i + 1..])[k - 1];
    } else {
      assert t[..i] == t;
    }
  }

  lemma NoteWhole(l: string)
    requires '\n' !in l
    ensures Whole(l + NoNewline)
  {
    var m := l + NoNewline;
    assert m[..|l|] == l && m[|l|] == NoNewline[0] && m[|l| + 1] == NoNewline[1];
    NewlineAt(m, |l|);
    var tail := NoNewline[1..];
    assert m[|l| + 1..] == tail;
    NoteEnd();
  }

  lemma NoteEnd()
    ensures FirstNewline(NoNewline[1..]) + 1 == |NoNewline[1..]|
  {
    var tail := NoNewline[1..];
    assert '\n' !in tail[..|tail| - 1];
    NewlineAt(tail, |tail| - 1);
  }

  lemma LinesWhole(t: string)
    ensures forall k :: 0 <= k < |Lines(t)| ==> Whole(Lines(t)[k])
  {
    SplitWhole(t);
    var ls := SplitAfter(t);
    hide Whole, SplitAfter;
    NoteWhole(ls[|ls| - 1]);
  }

  /** As many lines as the counts of the heading ask for. */
  function ReadBody(s: string, nx: nat, ny: nat): Option<(seq<string>, string)>
    decreases |s|
  {
    if nx == 0 && ny == 0 then Some(([], s))
    else if s == "" then None
    else
      var n := LineLength(s);
      var dx := if s[0] == '+' then 0 else 1;
      var dy := if s[0] == '-' then 0 else 1;
      if s[0] !in {' ', '-', '+'} || nx < dx || ny < dy then None
      else
        var more := ReadBody(s[n..], nx - dx, ny - dy);
        if more.None? then None else Some(([s[..n]] + more.value.0, more.value.1))
  }

  function Joins(ls: seq<string>): string { if ls == [] then "" else ls[0] + Joins(ls[1..]) }

  lemma {:induction false} SideFirst(body: seq<string>, c: char)
    requires body != []
    ensures Side(body, c) == (if Marked(body[0], c) then [body[0][1..]] else []) + Side(body[1..], c)
    decreases |body|
  {
    if |body| > 1 {
      var init := body[..|body| - 1];
      SideFirst(init, c);
      assert init[1..] == body[1..][..|body| - 2];
    } else {
      assert Side([], c) == [];
    }
  }

  ghost predicate AllWhole(body: seq<string>) { Signed(body) && forall i :: 0 <= i < |body| ==> Whole(body[i]) }

  lemma SideCount(body: seq<string>)
    requires Signed(body) && body != []
    ensures |Old(body)| == (if body[0][0] == '+' then 0 else 1) + |Old(body[1..])|
    ensures |New(body)| == (if body[0][0] == '-' then 0 else 1) + |New(body[1..])|
  {
    SideFirst(body, '-');
    SideFirst(body, '+');
    hide Side;
  }

  lemma NoBody(rest: string)
    ensures ReadBody(Joins([]) + rest, |Old([])|, |New([])|) == Some(([], rest))
  {
    assert Joins([]) + rest == rest;
  }

  lemma {:induction false} BodyRead(body: seq<string>, rest: string)
    requires AllWhole(body) && (rest != "" ==> rest[0] !in {'\\', ' ', '-', '+'})
    ensures ReadBody(Joins(body) + rest, |Old(body)|, |New(body)|) == Some((body, rest))
    decreases |body|
  {
    hide Whole, Old, New, ReadBody, Signed, LineLength, AllWhole, Joins;
    if body == [] {
      NoBody(rest);
    } else {
      var l, tail := body[0], body[1..];
      WholeFirst(body);
      SideCount(body);
      BodyRead(tail, rest);
      var more := Joins(tail) + rest;
      JoinsCons(body);
      Joined(l, Joins(tail), rest);
      JoinsFirst(tail, rest);
      WholeRead(l, more);
      BodyStep(l, more, |Old(body)|, |New(body)|, tail, rest);
      assert body == [l] + tail;
    }
  }

  lemma JoinsCons(ls: seq<string>)
    requires ls != []
    ensures Joins(ls) == ls[0] + Joins(ls[1..])
  {
  }

  lemma WholeFirst(body: seq<string>)
    requires AllWhole(body) && body != []
    ensures AllWhole(body[1..]) && Signed(body) && Signed(body[1..]) && Whole(body[0]) && body[0] != "" && body[0][0] in {' ', '-', '+'}
  {
    hide Whole;
  }

  lemma BodyStep(l: string, more: string, nx: nat, ny: nat, tail: seq<string>, rest: string)
    requires l != "" && l[0] in {' ', '-', '+'} && LineLength(l + more) == |l|
    requires var dx := if l[0] == '+' then 0 else 1; var dy := if l[0] == '-' then 0 else 1;
      nx >= dx && ny >= dy && ReadBody(more, nx - dx, ny - dy) == Some((tail, rest))
    ensures ReadBody(l + more, nx, ny) == Some(([l] + tail, rest))
  {
    var s := l + more;
    assert s[..|l|] == l && s[|l|..] == more && s[0] == l[0];
    hide LineLength;
  }

  lemma JoinsFirst(body: seq<string>, rest: string)
    requires Signed(body) && (rest != "" ==> rest[0] != '\\')
    ensures Joins(body) + rest != "" ==> (Joins(body) + rest)[0] != '\\'
  {
    if body == [] {
      assert Joins(body) + rest == rest;
    } else {
      assert (Joins(body) + rest)[0] == body[0][0];
    }
  }

  // ---------------------------------------------------------------- the whole text

  function HunkText(h: Hunk): string { Heading(h) + Joins(h.body) }

  function Emitted(hs: seq<Hunk>): string { if hs == [] then "" else HunkText(hs[0]) + Emitted(hs[1..]) }

  function ReadHunks(s: string): Option<seq<Hunk>>
    decreases |s|
  {
    if s == "" then Some([])
    else
      var head := ReadHeading(s);
      if head.None? then None
      else
        var h := head.value.0;
        var body := ReadBody(head.value.1, h.nx, h.ny);
        if body.None? || |body.value.1| >= |s| then None
        else
          var more := ReadHunks(body.value.1);
          if more.None? then None else Some([h.(body := body.value.0)] + more.value)
  }

  /** The counts of a hunk are those of its lines, which are whole. */
  ghost predicate Readable(h: Hunk) { AllWhole(h.body) && h.nx == |Old(h.body)| && h.ny == |New(h.body)| }

  lemma EmittedFirst(hs: seq<Hunk>)
    ensures hs != [] ==> Emitted(hs) != "" && Emitted(hs)[0] == '@'
    ensures hs == [] ==> Emitted(hs) == ""
  {
    if hs != [] {
      HeadingIs(hs[0], Joins(hs[0].body));
      hide Heading, Joins;
    }
  }

  lemma HunkRead(h: Hunk, rest: string)
    requires Readable(h) && (rest != "" ==> rest[0] == '@')
    ensures ReadHeading(HunkText(h) + rest) == Some((h.(body := []), Joins(h.body) + rest))
    ensures ReadBody(Joins(h.body) + rest, h.nx, h.ny) == Some((h.body, rest))
    ensures |rest| < |HunkText(h) + rest|
  {
    BodyRead(h.body, rest);
    HeadingRead(h, Joins(h.body) + rest);
    Joined(Heading(h), Joins(h.body), rest);
    HeadingIs(h, "");
    hide Heading, Joins, ReadHeading, ReadBody, AllWhole, Old, New, Decimal;
    assert Heading(h) + "" == Heading(h);
  }

  lemma {:induction false} HunksRead(hs: seq<Hunk>)
    requires forall i :: 0 <= i < |hs| ==> Readable(hs[i])
    ensures ReadHunks(Emitted(hs)) == Some(hs)
    decreases |hs|
  {
    hide Readable, HunkText, ReadHunks, Emitted, ReadHeading, ReadBody, Joins;
    if hs == [] {
      NoHunks();
    } else {
      var h, more := hs[0], Emitted(hs[1..]);
      HunksRead(hs[1..]);
      EmittedFirst(hs[1..]);
      EmittedCons(hs);
      HunkRead(h, more);
      HunkStep(h, HunkText(h) + more, more, hs[1..]);
      assert [h] + hs[1..] == hs;
    }
  }

  lemma NoHunks()
    ensures ReadHunks(Emitted([])) == Some([])
  {
  }

  lemma EmittedCons(hs: seq<Hunk>)
    requires hs != []
    ensures Emitted(hs) == HunkText(hs[0]) + Emitted(hs[1..])
  {
    hide HunkText;
  }

  lemma HunkStep(h: Hunk, s: string, more: string, hs: seq<Hunk>)
    requires ReadHeading(s) == Some((h.(body := []), Joins(h.body) + more)) && |more| < |s|
    requires ReadBody(Joins(h.body) + more, h.nx, h.ny) == Some((h.body, more)) && ReadHunks(more) == Some(hs)
    ensures ReadHunks(s) == Some([h] + hs)
  {
    hide ReadHeading, ReadBody, Joins;
  }

  lemma SideIn(body: seq<string>, i: nat)
    requires Signed(body) && i < |body|
    ensures body[i][0] != '+' ==> body[i][1..] in Old(body)
    ensures body[i][0] == '+' ==> body[i][1..] in New(body)
    decreases |body|
  {
    if i < |body| - 1 {
      SideIn(body[..|body| - 1], i);
    }
  }

  lemma AgreesReadable(x: seq<string>, y: seq<string>, h: Hunk, e: Pair)
    requires Agrees(x, y, h, e)
    requires (forall k :: 0 <= k < |x| ==> Whole(x[k])) && forall k :: 0 <= k < |y| ==> Whole(y[k])
    ensures Readable(h)
  {
    hide Whole, Old, New;
    forall i | 0 <= i < |h.body|
      ensures Whole(h.body[i])
    {
      SideIn(h.body, i);
      var l := h.body[i];
      assert Whole(l[1..]);
      MarkedWhole(l[0], l[1..]);
      assert [l[0]] + l[1..] == l;
    }
  }

  lemma {:induction false} FitReadable(x: seq<string>, y: seq<string>, hs: seq<Hunk>, e: Pair)
    requires Fit(x, y, hs, e)
    requires (forall k :: 0 <= k < |x| ==> Whole(x[k])) && forall k :: 0 <= k < |y| ==> Whole(y[k])
    ensures forall i :: 0 <= i < |hs| ==> Readable(hs[i])
    decreases |hs|
  {
    hide Whole, Readable, Agrees;
    if hs != [] {
      var h := hs[|hs| - 1];
      AgreesReadable(x, y, h, e);
      FitReadable(x, y, hs[..|hs| - 1], StartOf(x, y, h, e));
    }
  }

  ghost function StartOf(x: seq<string>, y: seq<string>, h: Hunk, e: Pair): Pair
    requires Agrees(x, y, h, e)
  {
    Start(h)
  }

  function Header(oldName: string, newName: string): string
  {
    "diff " + oldName + " " + newName + "\n" + "--- " + oldName + "\n" + "+++ " + newName + "\n"
  }

  /** The hunks read from s lead from x to y and back, and mark the fewest unique lines. */
  ghost predicate Leads(s: string, x: seq<string>, y: seq<string>)
  {
    var hs := ReadHunks(s);
    && hs.Some? && s == Emitted(hs.value)
    && Apply(x, hs.value) == Some(y) && Apply(y, FlipAll(hs.value)) == Some(x)
    && Fit(x, y, hs.value, Pair(|x|, |y|)) && Fewest(x, y, hs.value) && AllFramed(x, y, hs.value)
  }

  /** Diff as text: nothing for equal texts; otherwise a header, and hunks that are read back from it and
      lead from one text to the other, both ways. */
  method DiffOf(oldName: string, old': string, newName: string, new': string) returns (out: string)
    ensures out == "" <==> old' == new'
    ensures old' != new' ==> Header(oldName, newName) <= out && Leads(out[|Header(oldName, newName)|..], Lines(old'), Lines(new'))
  {
    hide *;
    var hs := Diff.Diff(old', new');
    if |hs| == 0 {
      return "";
    }
    var head := Header(oldName, newName);
    out := head;
    EmittedNone();
    assert hs[0..] == hs && hs[|hs|..] == [];
    for i := 0 to |hs|
      invariant out + Emitted(hs[i..]) == head + Emitted(hs)
    {
      var h := hs[i];
      EmittedStep(hs, i);
      Joined(out, HunkText(h), Emitted(hs[i + 1..]));
      ghost var before := out;
      out := out + Heading(h);
      TextIs(h);
      Joined(before, Heading(h), Joins(h.body));
      assert h.body[0..] == h.body && h.body[|h.body|..] == [];
      for j := 0 to |h.body|
        invariant out + Joins(h.body[j..]) == before + HunkText(h)
      {
        JoinsStep(h.body, j);
        Joined(out, h.body[j], Joins(h.body[j + 1..]));
        out := out + h.body[j];
      }
      assert out + "" == out;
    }
    assert out + "" == out;
    HeaderBefore(head, out, hs);
    HeaderSome(oldName, newName);
    LinesWhole(old');
    LinesWhole(new');
    FitReadable(Lines(old'), Lines(new'), hs, Pair(|Lines(old')|, |Lines(new')|));
    HunksRead(hs);
    LeadsWhen(out[|head|..], hs, Lines(old'), Lines(new'));
  }

  lemma TextIs(h: Hunk)
    ensures HunkText(h) == Heading(h) + Joins(h.body)
  {
  }

  lemma EmittedNone()
    ensures Emitted([]) == "" && Joins([]) == ""
  {
  }

  lemma EmittedStep(hs: seq<Hunk>, i: nat)
    requires i < |hs|
    ensures Emitted(hs[i..]) == HunkText(hs[i]) + Emitted(hs[i + 1..])
  {
    assert hs[i..][1..] == hs[i + 1..];
  }

  lemma JoinsStep(ls: seq<string>, j: nat)
    requires j < |ls|
    ensures Joins(ls[j..]) == ls[j] + Joins(ls[j + 1..])
  {
    assert ls[j..][1..] == ls[j + 1..];
  }

  lemma HeaderSome(oldName: string, newName: string)
    ensures Header(oldName, newName) != ""
  {
  }

  lemma HeaderBefore(head: string, out: string, hs: seq<Hunk>)
    requires out == head + Emitted(hs)
    ensures head <= out && out[|head|..] == Emitted(hs)
  {
  }

  lemma LeadsWhen(s: string, hs: seq<Hunk>, x: seq<string>, y: seq<string>)
    requires ReadHunks(s) == Some(hs) && s == Emitted(hs) && Apply(x, hs) == Some(y) && Apply(y, FlipAll(hs)) == Some(x)
    requires Fit(x, y, hs, Pair(|x|, |y|)) && Fewest(x, y, hs) && AllFramed(x, y, hs)
    ensures Leads(s, x, y)
  {
  }

  // ---------------------------------------------------------------- one line changed

  lemma {:induction false} Counting(body: seq<string>)
    requires Signed(body)
    ensures |body| <= |Old(body)| + |New(body)| <= 2 * |body|
  {
    if body != [] {
      Counting(body[..|body| - 1]);
    }
  }

  lemma ThreeBlanks(body: seq<string>)
    requires Blanks(body, 0, 3)
    ensures |Old(body)| >= 3
  {
    SideGrows(body, 0, 1);
    SideGrows(body, 1, 2);
    SideGrows(body, 2, 3);
    SideGrows(body, 3, |body|);
    assert body[..|body|] == body;
  }

  lemma HasLines(h: Hunk, x: seq<string>, y: seq<string>, e: Pair)
    requires Agrees(x, y, h, e) && Framed(x, y, h)
    ensures h.nx + h.ny > 0 && (h.nx < 3 ==> Start(h) == Pair(0, 0))
  {
    Counting(h.body);
    assert |x[Start(h).x..Start(h).x + h.nx]| == h.nx && |y[Start(h).y..Start(h).y + h.ny]| == h.ny;
    if Start(h) != Pair(0, 0) {
      ThreeBlanks(h.body);
    }
  }

  function Share(l: string, c: char): seq<string> { if Marked(l, c) then [l[1..]] else [] }

  lemma SideTwo(l: string, m: string, c: char)
    ensures Side([l], c) == Share(l, c) && Side([l, m], c) == Share(l, c) + Share(m, c)
  {
    SideSnoc([], l, c);
    SideSnoc([l], m, c);
    assert [] + [l] == [l] && [l] + [m] == [l, m] && [] + Share(l, c) == Share(l, c);
    hide Side;
  }

  /** A body with one old line and another new one. */
  lemma TwoLines(body: seq<string>, a: string, b: string)
    requires Signed(body) && Sorted(body) && Old(body) == [a] && New(body) == [b] && a != b
    ensures body == [['-'] + a, ['+'] + b]
  {
    Counting(body);
    hide Side;
    if |body| == 1 {
      assert body == [body[0]];
      SideTwo(body[0], "", '-');
      SideTwo(body[0], "", '+');
    } else {
      var l, m := body[0], body[1];
      assert body == [l, m];
      SideTwo(l, m, '-');
      SideTwo(l, m, '+');
      assert !(Begins(body[0], '+') && Begins(body[1], '-'));
      TwoShares(l, m, a, b);
    }
  }

  lemma TwoShares(l: string, m: string, a: string, b: string)
    requires l != "" && m != "" && l[0] in {' ', '-', '+'} && m[0] in {' ', '-', '+'} && !(l[0] == '+' && m[0] == '-')
    requires Share(l, '-') + Share(m, '-') == [a] && Share(l, '+') + Share(m, '+') == [b]
    ensures l == ['-'] + a && m == ['+'] + b
  {
    OneShare(Share(l, '-'), Share(m, '-'), a);
    OneShare(Share(l, '+'), Share(m, '+'), b);
    FirstAndRest(l);
    FirstAndRest(m);
  }

  lemma OneShare(p: seq<string>, q: seq<string>, a: string)
    requires p + q == [a]
    ensures (p == [a] && q == []) || (p == [] && q == [a])
  {
    assert |p| + |q| == 1;
    if |p| == 1 {
      assert (p + q)[0] == p[0];
    } else {
      assert (p + q)[0] == q[0];
    }
  }

  lemma FirstAndRest(l: string)
    requires l != ""
    ensures l == [l[0]] + l[1..]
  {
  }

  lemma OneHunk(x: seq<string>, y: seq<string>, hs: seq<Hunk>)
    requires |x| == |y| == 1 && x[0] != y[0] && Fit(x, y, hs, Pair(1, 1)) && AllFramed(x, y, hs)
    ensures hs == [Hunk(1, 1, 1, 1, [['-'] + x[0], ['+'] + y[0]])]
  {
    assert x[..1] == x && y[..1] == y;
    if hs != [] {
      var n := |hs| - 1;
      var h := hs[n];
      LastHunk(x, y, hs);
      hide Fit, Framed;
      if n > 0 {
        var g := hs[..n][n - 1];
        assert g == hs[n - 1];
        BeforeNothing(x, y, hs[..n]);
        hide Agrees;
        HasLines(g, x, y, Pair(0, 0));
      } else {
        OneBody(x, y, h);
        assert hs == [h];
      }
    }
  }

  lemma LastHunk(x: seq<string>, y: seq<string>, hs: seq<Hunk>)
    requires |x| == |y| == 1 && hs != [] && Fit(x, y, hs, Pair(1, 1)) && AllFramed(x, y, hs)
    ensures var h := hs[|hs| - 1]; Agrees(x, y, h, Pair(1, 1)) && Framed(x, y, h) && Start(h) == Pair(0, 0)
    ensures Fit(x, y, hs[..|hs| - 1], Pair(0, 0))
  {
    hide Framed;
    HasLines(hs[|hs| - 1], x, y, Pair(1, 1));
  }

  lemma BeforeNothing(x: seq<string>, y: seq<string>, hs: seq<Hunk>)
    requires hs != [] && Fit(x, y, hs, Pair(0, 0))
    ensures var g := hs[|hs| - 1]; Agrees(x, y, g, Pair(0, 0)) && g.nx == g.ny == 0
  {
  }

  lemma OneBody(x: seq<string>, y: seq<string>, h: Hunk)
    requires |x| == |y| == 1 && x[0] != y[0] && Agrees(x, y, h, Pair(1, 1)) && Framed(x, y, h) && Start(h) == Pair(0, 0)
    ensures h == Hunk(1, 1, 1, 1, [['-'] + x[0], ['+'] + y[0]])
  {
    HasLines(h, x, y, Pair(1, 1));
    assert |x[h.nx..1]| == |y[h.ny..1]|;
    assert h.nx == h.ny == 1;
    assert x[0..1] == [x[0]] && y[0..1] == [y[0]];
    SortedOf(x, y, h);
    hide Framed;
    TwoLines(h.body, x[0], y[0]);
  }

  lemma SortedOf(x: seq<string>, y: seq<string>, h: Hunk)
    requires Framed(x, y, h)
    ensures Sorted(h.body)
  {
  }

  /** One line instead of another. */
  method LineChanged() returns (out: string)
    ensures out == "diff a b\n--- a\n+++ b\n@@ -1,1 +1,1 @@\n-x\n+y\n"
  {
    ShortLines();
    hide *;
    out := DiffOf("a", "x\n", "b", "y\n");
    LineText(out);
  }

  lemma LineText(out: string)
    requires Header("a", "b") <= out && Leads(out[|Header("a", "b")|..], ["x\n"], ["y\n"])
    ensures out == "diff a b\n--- a\n+++ b\n@@ -1,1 +1,1 @@\n-x\n+y\n"
  {
    hide *;
    var x, y, head := ["x\n"], ["y\n"], Header("a", "b");
    LeadsMeans(out[|head|..], x, y);
    NotSame();
    OneHunk(x, y, ReadHunks(out[|head|..]).value);
    OneEmitted();
  }

  lemma LeadsMeans(s: string, x: seq<string>, y: seq<string>)
    requires Leads(s, x, y)
    ensures ReadHunks(s).Some? && s == Emitted(ReadHunks(s).value)
    ensures Fit(x, y, ReadHunks(s).value, Pair(|x|, |y|)) && AllFramed(x, y, ReadHunks(s).value)
  {
  }

  lemma NotSame()
    ensures |["x\n"]| == |["y\n"]| == 1 && ["x\n"][0] != ["y\n"][0]
    ensures ["x\n"][0] == "x\n" && ["y\n"][0] == "y\n"
  {
    assert "x\n"[0] == 'x' && "y\n"[0] == 'y';
  }

  lemma ShortLines()
    ensures Lines("x\n") == ["x\n"] && Lines("y\n") == ["y\n"]
  {
    OneLine('x');
    OneLine('y');
    hide Lines;
    assert ['x', '\n'] == "x\n" && ['y', '\n'] == "y\n";
  }

  lemma OneLine(c: char)
    requires c != '\n'
    ensures Lines([c, '\n']) == [[c, '\n']]
  {
    var t := [c, '\n'];
    assert FirstNewline(t[1..]) == 0;
    assert FirstNewline(t) == 1 && t[..2] == t && t[2..] == "";
    assert FirstNewline("") == 0 && SplitAfter("") == [""];
    assert SplitAfter(t) == [t, ""];
  }

  /** A last line without a newline is noted. */
  lemma NoteAdded()
    ensures Lines("y") == ["y\n\\ No newline at end of file\n"]
  {
    assert FirstNewline("y"[1..]) == 0;
    assert FirstNewline("y") == 1 && SplitAfter("y") == ["y"];
    assert "y" + NoNewline == "y\n\\ No newline at end of file\n";
  }

  lemma OneEmitted()
    ensures Header("a", "b") + Emitted([Hunk(1, 1, 1, 1, [['-'] + "x\n", ['+'] + "y\n"])])
      == "diff a b\n--- a\n+++ b\n@@ -1,1 +1,1 @@\n-x\n+y\n"
  {
    var a, b := ['-'] + "x\n", ['+'] + "y\n";
    var h := Hunk(1, 1, 1, 1, [a, b]);
    EmittedOne(h);
    JoinsTwo(a, b);
    HeadingOne(h);
    HeaderShort();
    hide *;
    Spelled();
  }

  lemma EmittedOne(h: Hunk)
    ensures Emitted([h]) == Heading(h) + Joins(h.body)
  {
    assert [h][1..] == [] && HunkText(h) + "" == HunkText(h);
    hide Heading, Joins;
  }

  lemma JoinsTwo(a: string, b: string)
    ensures Joins([a, b]) == a + b
  {
    assert [a, b][1..] == [b] && [b][1..] == [] && b + "" == b;
    assert Joins([b]) == b + Joins([]) && Joins([]) == "";
    assert Joins([a, b]) == a + Joins([b]);
  }

  lemma HeadingOne(h: Hunk)
    requires h.x == h.nx == h.y == h.ny == 1
    ensures Heading(h) == "@@ -1,1 +1,1 @@\n"
  {
    assert Decimal(1) == "1";
    hide Decimal;
    assert "@@ -" + "1" + "," + "1" == "@@ -1,1";
    assert "@@ -1,1" + " +" + "1" == "@@ -1,1 +1";
    assert "@@ -1,1 +1" + "," + "1" == "@@ -1,1 +1,1";
  }

  lemma HeaderShort()
    ensures Header("a", "b") == "diff a b\n--- a\n+++ b\n"
  {
    assert "diff " + "a" + " " + "b" + "\n" == "diff a b\n";
    assert "diff a b\n" + "--- " + "a" + "\n" == "diff a b\n--- a\n";
  }

  lemma Spelled()
    ensures "diff a b\n--- a\n+++ b\n" + ("@@ -1,1 +1,1 @@\n" + ((['-'] + "x\n") + (['+'] + "y\n")))
      == "diff a b\n--- a\n+++ b\n@@ -1,1 +1,1 @@\n-x\n+y\n"
  {
    assert ['-'] + "x\n" == "-x\n" && ['+'] + "y\n" == "+y\n" && "-x\n" + "+y\n" == "-x\n+y\n";
    assert "@@ -1,1 +1,1 @@\n" + "-x\n+y\n" == "@@ -1,1 +1,1 @@\n-x\n+y\n";
  }
}
