/** The changeset file format: a header line for the creation time and one for the order,
    then a setup block and a teardown block, each opened by a marker line and closed by an
    end marker. Markers are lines of two or more dashes, optional whitespace and a keyword,
    matched after the line is stripped and ignoring case. Every other line outside a block
    is ignored. */
module ChangesetFile {
  import opened Errors
  import opened Text
  import opened Changesets

  // ---- marker lines ---------------------------------------------------------------------------

  /** The index just past the run of dashes that starts at `k`. */
  function DashesEnd(line: string, k: nat): (n: nat)
    requires k <= |line|
    ensures k <= n <= |line|
    decreases |line| - k
  {
    if k < |line| && line[k] == '-' then DashesEnd(line, k + 1) else k
  }

  /** The part of a marker line after `-{2,}\s*`, or None when the line does not open with
      at least two dashes. The dashes and the whitespace are taken greedily, which is how the
      pattern matches them too, as no keyword starts with a dash or with whitespace. */
  function MarkerBody(line: string): Option<string> {
    var n := DashesEnd(line, 0);
    if n >= 2 then Some(line[SkipSpace(line, n)..]) else None
  }

  /** The marker line consists of the dashes, whitespace and exactly the keyword. */
  predicate IsMarker(line: string, keyword: string) {
    var body := MarkerBody(line);
    body.Some? && EqualsIgnoringCase(body.value, keyword)
  }

  /** `^-{2,}\s*end$`, case ignored. */
  predicate IsEndMarker(line: string) {
    IsMarker(line, "end")
  }

  /** `^-{2,}\s*begin setup$`, case ignored. */
  predicate IsBeginSetup(line: string) {
    IsMarker(line, "begin setup")
  }

  /** `^-{2,}\s*begin teardown$`, case ignored. */
  predicate IsBeginTeardown(line: string) {
    IsMarker(line, "begin teardown")
  }

  /** What follows the dashes of a header line: `keyword\s*:\s*([0-9]+)$`, case ignored,
      and the integer the digits spell. */
  function HeaderNumber(body: string, keyword: string): (r: Option<nat>)
    ensures r.Some? ==> |body| > |keyword| && EqualsIgnoringCase(body[..|keyword|], keyword)
  {
    if |body| < |keyword| || !EqualsIgnoringCase(body[..|keyword|], keyword) then None
    else
      var colon := SkipSpace(body, |keyword|);
      if colon == |body| || body[colon] != ':' then None
      else
        var digits := body[SkipSpace(body, colon + 1)..];
        if digits != [] && AllDigits(digits) then Some(ParseDigits(digits)) else None
  }

  /** The number a stripped header line for `keyword` declares, if it is one. */
  function HeaderValue(line: string, keyword: string): (r: Option<nat>)
    ensures r.Some? ==> MarkerBody(line).Some?
  {
    match MarkerBody(line)
    case None => None
    case Some(body) => HeaderNumber(body, keyword)
  }

  // ---- reading ------------------------------------------------------------------------------

  /** An end marker, once the line is stripped. */
  predicate Closes(line: string) {
    IsEndMarker(Strip(line))
  }

  /** The block that starts at line `k`: the lines up to its end marker, joined, and the
      index of the line after the end marker. A block that is never closed runs to the end of
      the file. */
  function Block(lines: seq<string>, k: nat): (r: (string, nat))
    requires k <= |lines|
    ensures k <= r.1 <= |lines|
    decreases |lines| - k
  {
    if k == |lines| then ("", k)
    else if Closes(lines[k]) then ("", k + 1)
    else
      var (content, next) := Block(lines, k + 1);
      (lines[k] + content, next)
  }

  /** What the reading loop makes of one line outside a block. */
  datatype LineKind = OrderHeader(order: nat) | CreatedAtHeader(createdAt: nat) | SetupMarker | TeardownMarker | Ignored

  /** The line is stripped first; an order header wins over a creation-time header, and a
      header line is never a block opener. */
  function Kind(line: string): LineKind {
    var l := Strip(line);
    var order := HeaderValue(l, "order");
    var createdAt := HeaderValue(l, "created at");
    if order.Some? then OrderHeader(order.value)
    else if createdAt.Some? then CreatedAtHeader(createdAt.value)
    else if IsBeginSetup(l) then SetupMarker
    else if IsBeginTeardown(l) then TeardownMarker
    else Ignored
  }

  /** A marker needs two or more dashes: a line opening with a single dash is no marker and
      no header. */
  lemma OneDashIsNoMarker(rest: string)
    requires rest == [] || rest[0] != '-'
    ensures MarkerBody("-" + rest).None?
    ensures !IsEndMarker("-" + rest) && !IsBeginSetup("-" + rest) && !IsBeginTeardown("-" + rest)
    ensures HeaderValue("-" + rest, "order").None? && HeaderValue("-" + rest, "created at").None?
  {
    var line := "-" + rest;
    assert line[0] == '-';
    assert DashesEnd(line, 1) == 1 by {
      if |line| > 1 {
        assert line[1] == rest[0];
      }
    }
  }

  /** The keyword is matched ignoring case, after any number of dashes from two on. */
  lemma UpperCaseEndMarker()
    ensures IsEndMarker("--END")
  {
    var line := "--END";
    assert DashesEnd(line, 2) == 2;
    assert DashesEnd(line, 0) == 2;
    assert !IsSpace(line[2]);
    assert SkipSpace(line, 2) == 2;
    assert line[2..] == "END";
    assert Lower('E') == 'e' && Lower('N') == 'n' && Lower('D') == 'd';
  }

  /** Nothing may follow the keyword. */
  lemma LongerWordIsNoEndMarker()
    ensures !IsEndMarker("--Ending")
  {
    var line := "--Ending";
    assert DashesEnd(line, 2) == 2;
    assert DashesEnd(line, 0) == 2;
    assert !IsSpace(line[2]);
    assert SkipSpace(line, 2) == 2;
    assert |line[2..]| == 6;
  }

  /** What a scan of a file has found so far; every header or block found later replaces
      the one found earlier. */
  datatype Found = Found(createdAt: Option<nat>, order: Option<nat>, setup: Option<string>, teardown: Option<string>)

  const NothingFound := Found(None, None, None, None)

  /** The reading loop from line `k` on, for a classifier `kind` of the lines outside blocks;
      reading a changeset file uses `Kind`. */
  function Scan(kind: string -> LineKind, lines: seq<string>, k: nat, found: Found): Found
    requires k <= |lines|
    decreases |lines| - k
  {
    if k == |lines| then found
    else
      match kind(lines[k])
      case OrderHeader(n) => Scan(kind, lines, k + 1, found.(order := Some(n)))
      case CreatedAtHeader(n) => Scan(kind, lines, k + 1, found.(createdAt := Some(n)))
      case SetupMarker =>
        var (content, next) := Block(lines, k + 1);
        Scan(kind, lines, next, found.(setup := Some(content)))
      case TeardownMarker =>
        var (content, next) := Block(lines, k + 1);
        Scan(kind, lines, next, found.(teardown := Some(content)))
      case Ignored => Scan(kind, lines, k + 1, found)
  }

  /** Of two header lines for the same field, the later one wins. */
  lemma LaterHeaderWins(kind: string -> LineKind, x: string, y: string, a: nat, b: nat, found: Found)
    requires kind(x) == OrderHeader(a) && kind(y) == OrderHeader(b)
    ensures Scan(kind, [x, y], 0, found) == found.(order := Some(b))
  {
    var lines := [x, y];
    assert lines[0] == x && lines[1] == y;
    assert Scan(kind, lines, 2, found.(order := Some(a)).(order := Some(b))) == found.(order := Some(b));
    assert Scan(kind, lines, 1, found.(order := Some(a))) == found.(order := Some(b));
  }

  /** `Changeset.from_file` on the lines of a file: the four fields, checked in the order
      order, setup, teardown, creation time, with both texts stripped by the setters. */
  function Decode(lines: seq<string>): (r: Result<Quintessence>)
    ensures r.Err? ==> r.error.InvalidChangesetFile?
    ensures r.Ok? ==> r.value.createdAt >= 0 && r.value.order.Some? && r.value.order.value >= 0
    ensures r.Ok? ==> IsStripped(r.value.setup) && IsStripped(r.value.teardown)
  {
    var found := Scan(Kind, lines, 0, NothingFound);
    if found.order.None? then Err(InvalidChangesetFile(Order))
    else if found.setup.None? then Err(InvalidChangesetFile(Setup))
    else if found.teardown.None? then Err(InvalidChangesetFile(Teardown))
    else if found.createdAt.None? then Err(InvalidChangesetFile(CreatedAt))
    else
      StripIsSurroundedSlice(found.setup.value);
      StripIsSurroundedSlice(found.teardown.value);
      Ok(Quintessence(found.createdAt.value, Some(found.order.value as int),
                      Strip(found.setup.value), Strip(found.teardown.value)))
  }

  lemma BlockStep(lines: seq<string>, k: nat, content: string)
    requires k < |lines|
    ensures Closes(lines[k]) ==> content + Block(lines, k).0 == content && Block(lines, k).1 == k + 1
    ensures !Closes(lines[k]) ==>
      content + Block(lines, k).0 == (content + lines[k]) + Block(lines, k + 1).0 && Block(lines, k).1 == Block(lines, k + 1).1
  {
    if !Closes(lines[k]) {
      assert content + (lines[k] + Block(lines, k + 1).0) == (content + lines[k]) + Block(lines, k + 1).0;
    } else {
      assert content + "" == content;
    }
  }

  /** `read_block`: consumes the lines from `start` up to and including the end marker. */
  method ReadBlock(lines: seq<string>, start: nat) returns (content: string, next: nat)
    requires start <= |lines|
    ensures (content, next) == Block(lines, start)
  {
    content := "";
    next := start;
    assert content + Block(lines, next).0 == Block(lines, next).0;
    while next < |lines|
      invariant start <= next <= |lines|
      invariant Block(lines, start).0 == content + Block(lines, next).0
      invariant Block(lines, start).1 == Block(lines, next).1
    {
      BlockStep(lines, next, content);
      var line := lines[next];
      next := next + 1;
      if IsEndMarker(Strip(line)) {
        return;
      }
      content := content + line;
    }
    assert content + "" == content;
  }

  /** The loop of `from_file` over the lines of the file. */
  method ScanLines(lines: seq<string>) returns (found: Found)
    ensures found == Scan(Kind, lines, 0, NothingFound)
  {
    found := NothingFound;
    var i := 0;
    while i < |lines|
      invariant 0 <= i <= |lines|
      invariant Scan(Kind, lines, i, found) == Scan(Kind, lines, 0, NothingFound)
    {
      var line := Strip(lines[i]);
      i := i + 1;
      var createdRe := HeaderValue(line, "created at");
      var orderRe := HeaderValue(line, "order");
      if orderRe.Some? {
        found := found.(order := orderRe);
      } else if createdRe.Some? {
        found := found.(createdAt := createdRe);
      } else if IsBeginSetup(line) {
        var content;
        content, i := ReadBlock(lines, i);
        found := found.(setup := Some(content));
      } else if IsBeginTeardown(line) {
        var content;
        content, i := ReadBlock(lines, i);
        found := found.(teardown := Some(content));
      }
    }
  }

  /** `Changeset.from_file`, given the contents of the file. */
  method FromFile(text: string) returns (r: Result<Changeset>)
    ensures r.Ok? ==> fresh(r.value) && r.value.Valid() && Decode(ReadLines(text)) == Ok(r.value.Value())
    ensures r.Err? ==> Decode(ReadLines(text)) == Err(r.error)
  {
    var found := ScanLines(ReadLines(text));
    if found.order.None? {
      return Err(InvalidChangesetFile(Order));
    }
    if found.setup.None? {
      return Err(InvalidChangesetFile(Setup));
    }
    if found.teardown.None? {
      return Err(InvalidChangesetFile(Teardown));
    }
    if found.createdAt.None? {
      return Err(InvalidChangesetFile(CreatedAt));
    }
    var cs := new Changeset(found.setup.value, found.teardown.value, Some(found.order.value as int),
                            Some(found.createdAt.value as int), 0);
    r := Ok(cs);
  }

  // ---- writing ------------------------------------------------------------------------------

  /** `Changeset.save`: the text written to the file, line by line: the two header lines,
      then each block as its marker, its text, a newline and an end marker. */
  function SaveText(q: Quintessence): string {
    var teardown := "--- Begin teardown\n" + (q.teardown + "\n" + "--- End\n");
    var setup := "--- Begin setup\n" + (q.setup + "\n" + ("--- End\n" + teardown));
    "--- Created at: " + IntToString(q.createdAt) + "\n" + ("--- Order: " + OrderToString(q.order) + "\n" + setup)
  }

  /** No line of `text`, as `save` writes it into a block, reads as an end marker. */
  predicate NoEndMarkerLine(text: string) {
    forall line | line in SplitLines(text + "\n") :: !Closes(line)
  }

  /** The fields whose file reads back as the same fields: non-negative numbers, texts as the
      setters leave them, no carriage return (reading translates it into a newline) and no
      line that would close its block early. */
  predicate Saveable(q: Quintessence) {
    q.createdAt >= 0 && q.order.Some? && q.order.value >= 0
    && IsStripped(q.setup) && IsStripped(q.teardown)
    && '\r' !in q.setup && '\r' !in q.teardown
    && NoEndMarkerLine(q.setup) && NoEndMarkerLine(q.teardown)
  }

  // ---- the lines `save` writes, one by one --------------------------------------------------

  lemma MarkerBodyOfSaved(word: string, rest: string)
    requires word != [] && !IsSpace(word[0]) && word[0] != '-'
    ensures MarkerBody("--- " + word + rest) == Some(word + rest)
  {
    var line := "--- " + word + rest;
    assert line[0] == '-' && line[1] == '-' && line[2] == '-' && line[3] == ' ' && line[4] == word[0];
    assert DashesEnd(line, 3) == 3;
    assert DashesEnd(line, 2) == 3;
    assert DashesEnd(line, 1) == 3;
    assert DashesEnd(line, 0) == 3;
    assert SkipSpace(line, 4) == 4;
    assert SkipSpace(line, 3) == 4;
    assert line[4..] == word + rest;
  }

  /** A header `save` writes for a non-negative number reads back as that number. */
  lemma HeaderOfSaved(word: string, keyword: string, n: nat)
    requires EqualsIgnoringCase(word, keyword)
    ensures HeaderNumber(word + ": " + NatToString(n), keyword) == Some(n)
  {
    var digits := NatToString(n);
    var body := word + ": " + digits;
    var k := |keyword|;
    assert body[..k] == word;
    assert body[k] == ':' && body[k + 1] == ' ' && body[k + 2] == digits[0];
    assert IsDigit(digits[0]);
    assert SkipSpace(body, k) == k;
    assert SkipSpace(body, k + 2) == k + 2;
    assert SkipSpace(body, k + 1) == k + 2;
    assert body[k + 2..] == digits;
    ParseNatToString(n);
  }

  /** A header body whose value does not start with a digit declares no number. */
  lemma NonNumericHeader(word: string, keyword: string, v: string)
    requires EqualsIgnoringCase(word, keyword)
    requires v != [] && !IsSpace(v[0]) && !IsDigit(v[0])
    ensures HeaderNumber(word + (": " + v), keyword) == None
  {
    var body := word + (": " + v);
    var k := |keyword|;
    assert body[..k] == word;
    assert body[k] == ':' && body[k + 1] == ' ' && body[k + 2] == v[0];
    assert SkipSpace(body, k) == k;
    assert SkipSpace(body, k + 2) == k + 2;
    assert SkipSpace(body, k + 1) == k + 2;
    assert body[k + 2..][0] == v[0];
  }

  /** A body whose first letter differs from the keyword's is neither that keyword's header
      nor its marker. */
  lemma HeaderOfOther(word: string, rest: string, keyword: string)
    requires word != [] && keyword != [] && Lower(word[0]) != keyword[0]
    ensures HeaderNumber(word + rest, keyword) == None
    ensures !EqualsIgnoringCase(word + rest, keyword)
  {
    var body := word + rest;
    assert body[0] == word[0];
    if |body| >= |keyword| {
      assert body[..|keyword|][0] == word[0];
    }
  }

  /** A header line `save` writes for a non-negative number: it strips to itself, declares
      the number for its own keyword and nothing for a keyword with another first letter. */
  lemma HeaderLine(word: string, keyword: string, other: string, n: nat)
    requires word != [] && !IsSpace(word[0]) && word[0] != '-'
    requires EqualsIgnoringCase(word, keyword)
    requires other != [] && Lower(word[0]) != other[0]
    ensures var line := "--- " + word + ": " + NatToString(n);
      Strip(line + "\n") == line
      && HeaderValue(line, keyword) == Some(n) && HeaderValue(line, other) == None
  {
    var digits := NatToString(n);
    var line := "--- " + word + ": " + digits;
    assert line[0] == '-' && line[|line| - 1] == digits[|digits| - 1];
    assert IsDigit(digits[|digits| - 1]);
    StripTrailingSpace(line, "\n");
    assert line == "--- " + word + (": " + digits);
    MarkerBodyOfSaved(word, ": " + digits);
    HeaderOfOther(word, ": " + digits, other);
    assert word + (": " + digits) == word + ": " + digits;
    HeaderOfSaved(word, keyword, n);
  }

  lemma CreatedAtLine(n: nat)
    ensures Strip("--- Created at: " + NatToString(n) + "\n") == "--- Created at: " + NatToString(n)
    ensures HeaderValue("--- Created at: " + NatToString(n), "order") == None
    ensures HeaderValue("--- Created at: " + NatToString(n), "created at") == Some(n)
  {
    assert "--- Created at: " == "--- " + "Created at" + ": ";
    HeaderLine("Created at", "created at", "order", n);
  }

  lemma OrderLine(n: nat)
    ensures Strip("--- Order: " + NatToString(n) + "\n") == "--- Order: " + NatToString(n)
    ensures HeaderValue("--- Order: " + NatToString(n), "order") == Some(n)
  {
    assert "--- Order: " == "--- " + "Order" + ": ";
    HeaderLine("Order", "order", "created at", n);
  }

  /** An order line whose value does not start with a digit, such as the one `save` writes
      for an unset order, is not a header, nor any marker. */
  lemma NonNumericOrderLine(v: string)
    requires v != [] && !IsSpace(v[0]) && !IsDigit(v[0]) && !IsSpace(v[|v| - 1])
    ensures Strip("--- Order: " + v + "\n") == "--- Order: " + v
    ensures HeaderValue("--- Order: " + v, "order") == None
    ensures HeaderValue("--- Order: " + v, "created at") == None
    ensures !IsBeginSetup("--- Order: " + v) && !IsBeginTeardown("--- Order: " + v)
  {
    var line := "--- Order: " + v;
    assert line[0] == '-' && line[|line| - 1] == v[|v| - 1];
    StripTrailingSpace(line, "\n");
    assert line == "--- " + "Order" + (": " + v);
    MarkerBodyOfSaved("Order", ": " + v);
    NonNumericHeader("Order", "order", v);
    HeaderOfOther("Order", ": " + v, "created at");
    HeaderOfOther("Order", ": " + v, "begin setup");
    HeaderOfOther("Order", ": " + v, "begin teardown");
  }

  /** A marker line `save` writes strips to itself, is no header, and is the marker for
      exactly the keywords its word matches. */
  lemma MarkerLine(word: string, keyword: string)
    requires word != [] && !IsSpace(word[0]) && !IsSpace(word[|word| - 1]) && word[0] != '-'
    requires Lower(word[0]) != 'o' && Lower(word[0]) != 'c'
    ensures var line := Strip("--- " + word + "\n");
      line == "--- " + word && HeaderValue(line, "order") == None && HeaderValue(line, "created at") == None
      && (IsMarker(line, keyword) <==> EqualsIgnoringCase(word, keyword))
  {
    var line := "--- " + word;
    assert line[0] == '-' && line[|line| - 1] == word[|word| - 1];
    StripTrailingSpace(line, "\n");
    assert line + "" == line && word + "" == word;
    MarkerBodyOfSaved(word, "");
    HeaderOfOther(word, "", "order");
    HeaderOfOther(word, "", "created at");
  }

  /** The lines of a block that holds no end marker, closed by one. */
  lemma {:induction false} BlockOver(lines: seq<string>, k: nat, j: nat)
    requires k <= j < |lines|
    requires forall i | k <= i < j :: !Closes(lines[i])
    requires Closes(lines[j])
    ensures Block(lines, k) == (Concat(lines[k..j]), j + 1)
    decreases j - k
  {
    if k < j {
      BlockOver(lines, k + 1, j);
      assert lines[k..j][1..] == lines[k + 1..j];
    }
  }

  /** A text `save` writes as one line. */
  lemma SplitSavedLine(s: string, rest: string)
    requires '\n' !in s
    ensures SplitLines(s + "\n" + rest) == [s + "\n"] + SplitLines(rest)
  {
    SplitOneLine(s);
    SplitLinesAppend(s + "\n", rest);
  }

  /** A line `save` writes with its newline. */
  lemma SplitSavedMarker(line: string, rest: string)
    requires line != [] && line[|line| - 1] == '\n' && '\n' !in line[..|line| - 1]
    ensures SplitLines(line + rest) == [line] + SplitLines(rest)
  {
    assert line == line[..|line| - 1] + "\n";
    SplitSavedLine(line[..|line| - 1], rest);
  }

  lemma SplitTeardownBlock(teardown: string)
    ensures SplitLines("--- Begin teardown\n" + (teardown + "\n" + "--- End\n"))
         == ["--- Begin teardown\n"] + (SplitLines(teardown + "\n") + ["--- End\n"])
  {
    SplitLinesAppend(teardown + "\n", "--- End\n");
    SplitSavedMarker("--- End\n", []);
    assert "--- End\n" + [] == "--- End\n";
    SplitSavedMarker("--- Begin teardown\n", teardown + "\n" + "--- End\n");
  }

  lemma SplitSetupBlock(setup: string, rest: string)
    ensures SplitLines("--- Begin setup\n" + (setup + "\n" + ("--- End\n" + rest)))
         == ["--- Begin setup\n"] + (SplitLines(setup + "\n") + (["--- End\n"] + SplitLines(rest)))
  {
    SplitSavedMarker("--- End\n", rest);
    SplitLinesAppend(setup + "\n", "--- End\n" + rest);
    SplitSavedMarker("--- Begin setup\n", setup + "\n" + ("--- End\n" + rest));
  }

  /** The lines of a file shaped as `save` writes it, whatever its header lines say. */
  lemma SplitSavedShape(createdAt: string, order: string, setup: string, teardown: string)
    requires '\n' !in createdAt && '\n' !in order
    ensures SplitLines(createdAt + "\n" + (order + "\n" + ("--- Begin setup\n" + (setup + "\n"
              + ("--- End\n" + ("--- Begin teardown\n" + (teardown + "\n" + "--- End\n")))))))
         == [createdAt + "\n"] + ([order + "\n"] + (["--- Begin setup\n"] + (SplitLines(setup + "\n")
            + (["--- End\n"] + (["--- Begin teardown\n"] + (SplitLines(teardown + "\n") + ["--- End\n"]))))))
  {
    var teardownBlock := "--- Begin teardown\n" + (teardown + "\n" + "--- End\n");
    var setupBlock := "--- Begin setup\n" + (setup + "\n" + ("--- End\n" + teardownBlock));
    SplitTeardownBlock(teardown);
    SplitSetupBlock(setup, teardownBlock);
    SplitSavedLine(order, setupBlock);
    SplitSavedLine(createdAt, order + "\n" + setupBlock);
  }

  /** Neither header line `save` writes contains a line break. */
  lemma HeaderLinesAreSingle(q: Quintessence)
    requires q.createdAt >= 0 && (q.order.None? || q.order.value >= 0)
    ensures var h := "--- Created at: " + NatToString(q.createdAt); '\n' !in h && '\r' !in h
    ensures var h := "--- Order: " + OrderToString(q.order); '\n' !in h && '\r' !in h
  {
    var c := NatToString(q.createdAt);
    assert forall i | 0 <= i < |c| :: IsDigit(c[i]);
    if q.order.Some? {
      var o := NatToString(q.order.value);
      assert forall i | 0 <= i < |o| :: IsDigit(o[i]);
    }
  }

  lemma MarkersWithoutCarriageReturn()
    ensures '\r' !in "--- Begin setup\n" && '\r' !in "--- Begin teardown\n"
    ensures '\r' !in "--- End\n" && '\r' !in "\n"
  {
  }

  /** `save` writes no carriage return of its own. */
  lemma SavedWithoutCarriageReturn(q: Quintessence)
    requires q.createdAt >= 0 && (q.order.None? || q.order.value >= 0)
    requires '\r' !in q.setup && '\r' !in q.teardown
    ensures '\r' !in SaveText(q)
  {
    HeaderLinesAreSingle(q);
    MarkersWithoutCarriageReturn();
    var teardown := "--- Begin teardown\n" + (q.teardown + "\n" + "--- End\n");
    var setup := "--- Begin setup\n" + (q.setup + "\n" + ("--- End\n" + teardown));
    assert '\r' !in teardown;
    assert '\r' !in setup;
  }

  /** The lines of the file `save` writes. */
  lemma SavedLines(q: Quintessence)
    requires q.createdAt >= 0 && (q.order.None? || q.order.value >= 0)
    requires '\r' !in q.setup && '\r' !in q.teardown
    ensures ReadLines(SaveText(q))
         == ["--- Created at: " + NatToString(q.createdAt) + "\n"] + (["--- Order: " + OrderToString(q.order) + "\n"]
            + (["--- Begin setup\n"] + (SplitLines(q.setup + "\n") + (["--- End\n"]
            + (["--- Begin teardown\n"] + (SplitLines(q.teardown + "\n") + ["--- End\n"]))))))
  {
    var createdAt := "--- Created at: " + NatToString(q.createdAt);
    var order := "--- Order: " + OrderToString(q.order);
    HeaderLinesAreSingle(q);
    var text := SaveText(q);
    SavedWithoutCarriageReturn(q);
    TranslateWithoutCarriageReturn(text);
    SplitSavedShape(createdAt, order, q.setup, q.teardown);
  }

  // ---- reading the lines `save` writes, step by step -----------------------------------------

  /** The creation-time line `save` writes declares the creation time. */
  lemma CreatedAtLineDeclares(line: string, n: nat)
    requires line == "--- Created at: " + NatToString(n) + "\n"
    ensures Kind(line) == CreatedAtHeader(n)
  {
    CreatedAtLine(n);
  }

  /** The order line `save` writes declares the order when it is set, and is passed over
      when it is not. */
  lemma OrderLineDeclares(line: string, order: Option<int>)
    requires line == "--- Order: " + OrderToString(order) + "\n"
    requires order.None? || order.value >= 0
    ensures Kind(line) == if order.Some? then OrderHeader(order.value) else Ignored
  {
    if order.Some? {
      OrderLine(order.value);
    } else {
      assert "None"[0] == 'N' && "None"[3] == 'e';
      NonNumericOrderLine("None");
    }
  }

  lemma EndLine(line: string)
    requires line == "--- End\n"
    ensures Closes(line)
  {
    assert "--- End\n" == "--- " + "End" + "\n";
    MarkerLine("End", "end");
    assert EqualsIgnoringCase("End", "end");
  }

  lemma BeginSetupText()
    ensures "--- Begin setup\n" == "--- " + "Begin setup" + "\n"
  {
  }

  lemma BeginTeardownText()
    ensures "--- Begin teardown\n" == "--- " + "Begin teardown" + "\n"
  {
  }

  lemma BeginSetupWord()
    ensures EqualsIgnoringCase("Begin setup", "begin setup")
  {
  }

  lemma BeginTeardownWord()
    ensures EqualsIgnoringCase("Begin teardown", "begin teardown")
    ensures !EqualsIgnoringCase("Begin teardown", "begin setup")
  {
  }

  lemma BeginSetupLine(line: string)
    requires line == "--- Begin setup\n"
    ensures Kind(line) == SetupMarker
  {
    BeginSetupText();
    BeginSetupWord();
    MarkerLine("Begin setup", "begin setup");
  }

  lemma BeginTeardownLine(line: string)
    requires line == "--- Begin teardown\n"
    ensures Kind(line) == TeardownMarker
  {
    BeginTeardownText();
    BeginTeardownWord();
    MarkerLine("Begin teardown", "begin setup");
    MarkerLine("Begin teardown", "begin teardown");
  }

  /** The two header lines `save` writes, read one after the other. */
  lemma ScanHeaders(kind: string -> LineKind, lines: seq<string>, createdAt: nat, order: Option<int>)
    requires 2 <= |lines| && (order.None? || order.value >= 0)
    requires kind(lines[0]) == CreatedAtHeader(createdAt)
    requires kind(lines[1]) == if order.Some? then OrderHeader(order.value) else Ignored
    ensures Scan(kind, lines, 0, NothingFound)
         == Scan(kind, lines, 2, Found(Some(createdAt), if order.Some? then Some(order.value) else None, None, None))
  {
    assert Scan(kind, lines, 0, NothingFound) == Scan(kind, lines, 1, NothingFound.(createdAt := Some(createdAt)));
  }

  /** A block opened at `k` and closed by the end marker at `j`, with no end marker between. */
  lemma ScanBlock(kind: string -> LineKind, lines: seq<string>, k: nat, j: nat, found: Found)
    requires k < j < |lines|
    requires kind(lines[k]) == SetupMarker || kind(lines[k]) == TeardownMarker
    requires Closes(lines[j])
    requires forall i | k < i < j :: !Closes(lines[i])
    ensures kind(lines[k]) == SetupMarker ==>
      Scan(kind, lines, k, found) == Scan(kind, lines, j + 1, found.(setup := Some(Concat(lines[k + 1..j]))))
    ensures kind(lines[k]) == TeardownMarker ==>
      Scan(kind, lines, k, found) == Scan(kind, lines, j + 1, found.(teardown := Some(Concat(lines[k + 1..j]))))
  {
    assert Block(lines, k + 1) == (Concat(lines[k + 1..j]), j + 1) by {
      BlockOver(lines, k + 1, j);
    }
  }

  /** The setup block from line 2 to the end marker at `e0`, then the teardown block from
      the line after it to the end marker at `e1`, the last line. */
  lemma ScanTwoBlocks(kind: string -> LineKind, lines: seq<string>, e0: nat, e1: nat, found: Found)
    requires 2 < e0 && e0 + 1 < e1 && |lines| == e1 + 1
    requires kind(lines[2]) == SetupMarker && Closes(lines[e0])
    requires kind(lines[e0 + 1]) == TeardownMarker && Closes(lines[e1])
    requires forall i | 2 < i < e0 :: !Closes(lines[i])
    requires forall i | e0 + 1 < i < e1 :: !Closes(lines[i])
    ensures Scan(kind, lines, 2, found)
         == found.(setup := Some(Concat(lines[3..e0])), teardown := Some(Concat(lines[e0 + 2..e1])))
  {
    var f3 := found.(setup := Some(Concat(lines[3..e0])));
    ScanBlock(kind, lines, 2, e0, found);
    ScanBlock(kind, lines, e0 + 1, e1, f3);
    assert Scan(kind, lines, e1 + 1, f3.(teardown := Some(Concat(lines[e0 + 2..e1])))) == f3.(teardown := Some(Concat(lines[e0 + 2..e1])));
  }

  /** Reading lines laid out as `save` lays them out: two header lines, the setup block from
      line 2 to the end marker at `e0`, and the teardown block from the line after it to the
      end marker at `e1`, the last line. */
  lemma ScanOfShape(kind: string -> LineKind, lines: seq<string>, createdAt: nat, order: Option<int>, e0: nat, e1: nat)
    requires order.None? || order.value >= 0
    requires 2 < e0 && e0 + 1 < e1 && |lines| == e1 + 1
    requires kind(lines[0]) == CreatedAtHeader(createdAt)
    requires kind(lines[1]) == if order.Some? then OrderHeader(order.value) else Ignored
    requires kind(lines[2]) == SetupMarker && Closes(lines[e0])
    requires kind(lines[e0 + 1]) == TeardownMarker && Closes(lines[e1])
    requires forall i | 2 < i < e0 :: !Closes(lines[i])
    requires forall i | e0 + 1 < i < e1 :: !Closes(lines[i])
    ensures Scan(kind, lines, 0, NothingFound)
         == Found(Some(createdAt), if order.Some? then Some(order.value) else None,
                  Some(Concat(lines[3..e0])), Some(Concat(lines[e0 + 2..e1])))
  {
    var f2 := Found(Some(createdAt), if order.Some? then Some(order.value) else None, None, None);
    ScanHeaders(kind, lines, createdAt, order);
    ScanTwoBlocks(kind, lines, e0, e1, f2);
  }

  /** Where each part of a file shaped as `save` writes it sits among its lines: the first
      end marker at `|s| + 3`, the second at `|s| + 3 + |t| + 2`. */
  lemma ShapeIndices(lines: seq<string>, a: string, b: string, c: string, s: seq<string>,
                     d: string, e: string, t: seq<string>, f: string)
    requires lines == [a] + ([b] + ([c] + (s + ([d] + ([e] + (t + [f]))))))
    ensures var e0 := |s| + 3; var e1 := e0 + |t| + 2;
      |lines| == e1 + 1 && lines[0] == a && lines[1] == b && lines[2] == c
      && lines[e0] == d && lines[e0 + 1] == e && lines[e1] == f
      && lines[3..e0] == s && lines[e0 + 2..e1] == t
  {
    var tail := [d] + ([e] + (t + [f]));
    assert lines[3..] == s + tail;
    assert lines[|s| + 3..] == tail;
    assert lines[|s| + 5..] == t + [f];
  }

  /** A run of lines that are all lines of `body` holds no end marker when `body` holds none. */
  lemma NoEndMarkerBetween(lines: seq<string>, k: nat, j: nat, body: seq<string>)
    requires k < j <= |lines| && lines[k + 1..j] == body
    requires forall line | line in body :: !Closes(line)
    ensures forall i | k < i < j :: !Closes(lines[i])
  {
    forall i | k < i < j
      ensures !Closes(lines[i])
    {
      assert lines[i] == body[i - k - 1];
    }
  }

  /** The marker and header lines of a file laid out as `save` lays it out read as such. */
  lemma MarkerKinds(lines: seq<string>, createdAt: nat, order: Option<int>, e0: nat, e1: nat)
    requires order.None? || order.value >= 0
    requires 2 < e0 && e0 + 1 < e1 < |lines|
    requires lines[0] == "--- Created at: " + NatToString(createdAt) + "\n"
    requires lines[1] == "--- Order: " + OrderToString(order) + "\n"
    requires lines[2] == "--- Begin setup\n" && lines[e0] == "--- End\n"
    requires lines[e0 + 1] == "--- Begin teardown\n" && lines[e1] == "--- End\n"
    ensures Kind(lines[0]) == CreatedAtHeader(createdAt)
    ensures Kind(lines[1]) == if order.Some? then OrderHeader(order.value) else Ignored
    ensures Kind(lines[2]) == SetupMarker && Closes(lines[e0])
    ensures Kind(lines[e0 + 1]) == TeardownMarker && Closes(lines[e1])
  {
    CreatedAtLineDeclares(lines[0], createdAt);
    OrderLineDeclares(lines[1], order);
    BeginSetupLine(lines[2]);
    EndLine(lines[e0]);
    BeginTeardownLine(lines[e0 + 1]);
    EndLine(lines[e1]);
  }

  /** The marker and header lines of the file `save` writes. */
  lemma SavedMarkerLines(q: Quintessence)
    requires q.createdAt >= 0 && (q.order.None? || q.order.value >= 0)
    requires '\r' !in q.setup && '\r' !in q.teardown
    ensures var lines := ReadLines(SaveText(q));
      var e0 := |SplitLines(q.setup + "\n")| + 3; var e1 := e0 + |SplitLines(q.teardown + "\n")| + 2;
      |lines| == e1 + 1
      && lines[0] == "--- Created at: " + NatToString(q.createdAt) + "\n"
      && lines[1] == "--- Order: " + OrderToString(q.order) + "\n"
      && lines[2] == "--- Begin setup\n" && lines[e0] == "--- End\n"
      && lines[e0 + 1] == "--- Begin teardown\n" && lines[e1] == "--- End\n"
  {
    SavedLines(q);
    ShapeIndices(ReadLines(SaveText(q)),
                 "--- Created at: " + NatToString(q.createdAt) + "\n", "--- Order: " + OrderToString(q.order) + "\n",
                 "--- Begin setup\n", SplitLines(q.setup + "\n"), "--- End\n", "--- Begin teardown\n",
                 SplitLines(q.teardown + "\n"), "--- End\n");
  }

  /** The lines inside the two blocks of the file `save` writes are the lines of the texts. */
  lemma SavedBodyLines(q: Quintessence)
    requires q.createdAt >= 0 && (q.order.None? || q.order.value >= 0)
    requires '\r' !in q.setup && '\r' !in q.teardown
    ensures var lines := ReadLines(SaveText(q));
      var s, t := SplitLines(q.setup + "\n"), SplitLines(q.teardown + "\n");
      var e0 := |s| + 3; var e1 := e0 + |t| + 2;
      |lines| == e1 + 1 && lines[3..e0] == s && lines[e0 + 2..e1] == t
  {
    SavedLines(q);
    ShapeIndices(ReadLines(SaveText(q)),
                 "--- Created at: " + NatToString(q.createdAt) + "\n", "--- Order: " + OrderToString(q.order) + "\n",
                 "--- Begin setup\n", SplitLines(q.setup + "\n"), "--- End\n", "--- Begin teardown\n",
                 SplitLines(q.teardown + "\n"), "--- End\n");
  }

  /** How the header and marker lines of the file `save` writes read. */
  lemma SavedMarkerKinds(q: Quintessence)
    requires q.createdAt >= 0 && (q.order.None? || q.order.value >= 0)
    requires '\r' !in q.setup && '\r' !in q.teardown
    ensures var lines := ReadLines(SaveText(q));
      var e0 := |SplitLines(q.setup + "\n")| + 3; var e1 := e0 + |SplitLines(q.teardown + "\n")| + 2;
      |lines| == e1 + 1
      && Kind(lines[0]) == CreatedAtHeader(q.createdAt)
      && Kind(lines[1]) == (if q.order.Some? then OrderHeader(q.order.value) else Ignored)
      && Kind(lines[2]) == SetupMarker && Closes(lines[e0])
      && Kind(lines[e0 + 1]) == TeardownMarker && Closes(lines[e1])
  {
    var e0 := |SplitLines(q.setup + "\n")| + 3;
    SavedMarkerLines(q);
    MarkerKinds(ReadLines(SaveText(q)), q.createdAt, q.order, e0, e0 + |SplitLines(q.teardown + "\n")| + 2);
  }

  /** The lines inside the two blocks of the file `save` writes hold no end marker and join
      up to the texts, each followed by a newline. */
  lemma SavedBodies(q: Quintessence)
    requires q.createdAt >= 0 && (q.order.None? || q.order.value >= 0)
    requires '\r' !in q.setup && '\r' !in q.teardown
    requires NoEndMarkerLine(q.setup) && NoEndMarkerLine(q.teardown)
    ensures var lines := ReadLines(SaveText(q));
      var e0 := |SplitLines(q.setup + "\n")| + 3; var e1 := e0 + |SplitLines(q.teardown + "\n")| + 2;
      |lines| == e1 + 1
      && (forall i | 2 < i < e0 :: !Closes(lines[i]))
      && (forall i | e0 + 1 < i < e1 :: !Closes(lines[i]))
      && Concat(lines[3..e0]) == q.setup + "\n" && Concat(lines[e0 + 2..e1]) == q.teardown + "\n"
  {
    var lines := ReadLines(SaveText(q));
    var s, t := SplitLines(q.setup + "\n"), SplitLines(q.teardown + "\n");
    var e0 := |s| + 3;
    SavedBodyLines(q);
    NoEndMarkerBetween(lines, 2, e0, s);
    NoEndMarkerBetween(lines, e0 + 1, e0 + |t| + 2, t);
    ConcatSplitLines(q.setup + "\n");
    ConcatSplitLines(q.teardown + "\n");
  }

  /** Reading lines that look, line by line, the way the lines of the file `save` writes for
      `q` look. */
  lemma ScanOfSavedLayout(q: Quintessence, lines: seq<string>)
    requires q.createdAt >= 0 && (q.order.None? || q.order.value >= 0)
    requires var e0 := |SplitLines(q.setup + "\n")| + 3; var e1 := e0 + |SplitLines(q.teardown + "\n")| + 2;
      |lines| == e1 + 1
      && Kind(lines[0]) == CreatedAtHeader(q.createdAt)
      && Kind(lines[1]) == (if q.order.Some? then OrderHeader(q.order.value) else Ignored)
      && Kind(lines[2]) == SetupMarker && Closes(lines[e0])
      && Kind(lines[e0 + 1]) == TeardownMarker && Closes(lines[e1])
    requires var e0 := |SplitLines(q.setup + "\n")| + 3; var e1 := e0 + |SplitLines(q.teardown + "\n")| + 2;
      |lines| == e1 + 1
      && (forall i | 2 < i < e0 :: !Closes(lines[i]))
      && (forall i | e0 + 1 < i < e1 :: !Closes(lines[i]))
      && Concat(lines[3..e0]) == q.setup + "\n" && Concat(lines[e0 + 2..e1]) == q.teardown + "\n"
    ensures Scan(Kind, lines, 0, NothingFound)
         == Found(Some(q.createdAt), if q.order.Some? then Some(q.order.value) else None,
                  Some(q.setup + "\n"), Some(q.teardown + "\n"))
  {
    var e0 := |SplitLines(q.setup + "\n")| + 3;
    ScanOfShape(Kind, lines, q.createdAt, q.order, e0, e0 + |SplitLines(q.teardown + "\n")| + 2);
  }

  /** What reading finds in a file `save` wrote: both numbers, an order only when it was set,
      and each block as its text followed by the newline `save` adds. */
  lemma ScanOfSaved(q: Quintessence)
    requires q.createdAt >= 0 && (q.order.None? || q.order.value >= 0)
    requires '\r' !in q.setup && '\r' !in q.teardown
    requires NoEndMarkerLine(q.setup) && NoEndMarkerLine(q.teardown)
    ensures Scan(Kind, ReadLines(SaveText(q)), 0, NothingFound)
         == Found(Some(q.createdAt), if q.order.Some? then Some(q.order.value) else None,
                  Some(q.setup + "\n"), Some(q.teardown + "\n"))
  {
    SavedMarkerKinds(q);
    SavedBodies(q);
    ScanOfSavedLayout(q, ReadLines(SaveText(q)));
  }

  /** A changeset saved with every field set reads back as the same changeset. */
  lemma RoundTrip(q: Quintessence)
    requires Saveable(q)
    ensures Decode(ReadLines(SaveText(q))) == Ok(q)
  {
    ScanOfSaved(q);
    assert AllSpace("\n");
    StripTrailingSpace(q.setup, "\n");
    StripTrailingSpace(q.teardown, "\n");
  }

  /** `save` writes an unset order as `None`, which is not a number, so the file it writes
      for a changeset that was never given an order cannot be read back. */
  lemma SavedWithoutOrderIsRejected(q: Quintessence)
    requires q.createdAt >= 0 && q.order.None?
    requires '\r' !in q.setup && '\r' !in q.teardown
    requires NoEndMarkerLine(q.setup) && NoEndMarkerLine(q.teardown)
    ensures Decode(ReadLines(SaveText(q))) == Err(InvalidChangesetFile(Order))
  {
    ScanOfSaved(q);
  }
}
