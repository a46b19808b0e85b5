/** The HackMD writer: turns a document into one Markdown string. The document
    title, when present, becomes a `# ` line; then every section becomes one
    block, in order. A block holds, each only when its field is non-empty, a
    `## ` heading, the introduction, a `rust=` fenced copy of the referenced
    code file and the details, and it always ends with a rule line between
    blank lines. */
module HackMD {
  import opened Formatter

  /** Closes every section block, the last one included. */
  const Separator: string := "\n" + "----" + "\n" + "\n"
  const FenceOpen: string := "```rust=\n"
  const FenceClose: string := "\n```\n"

  // ---------------------------------------------------------------------------
  // Specification: the text the writer produces
  // ---------------------------------------------------------------------------

  function TitleLine(title: string): string {
    if title == "" then "" else "# " + title + "\n"
  }

  function Heading(title: string): string {
    if title == "" then "" else "## " + title + "\n"
  }

  /** A text field on a line of its own, or nothing when the field is empty. */
  function Line(text: string): string {
    if text == "" then "" else text + "\n"
  }

  function CodeFence(path: string, files: Files): string
    requires path == "" || path in files
  {
    if path == "" then "" else FenceOpen + files[path] + FenceClose
  }

  /** The block one section contributes to the output. */
  function Block(s: Section, files: Files): string
    requires CodeReadable(s, files)
  {
    Heading(s.title) + Line(s.introduction) + CodeFence(s.code, files) + Line(s.details) + Separator
  }

  /** The block of every section, in the sections' order. */
  function Blocks(sections: seq<Section>, files: Files): seq<string>
    requires AllCodeReadable(sections, files)
  {
    seq(|sections|, i requires 0 <= i < |sections| => Block(sections[i], files))
  }

  /** Strings joined end to end, in order. */
  function Concat(parts: seq<string>): string {
    if |parts| == 0 then "" else parts[0] + Concat(parts[1..])
  }

  /** The blocks of all sections, concatenated in order. */
  function SectionsText(sections: seq<Section>, files: Files): string
    requires AllCodeReadable(sections, files)
  {
    Concat(Blocks(sections, files))
  }

  /** The whole text written for a document. */
  function DocumentText(data: UserData, files: Files): string
    requires AllCodeReadable(data.sections, files)
  {
    TitleLine(data.title) + SectionsText(data.sections, files)
  }

  /** The length of a part: nothing when the field is empty, otherwise the
      field plus the fixed characters that frame it. */
  function PartLength(field: string, frame: nat): nat {
    if field == "" then 0 else |field| + frame
  }

  // ---------------------------------------------------------------------------
  // The writer, as the Rust implementation runs it
  // ---------------------------------------------------------------------------

  /** Builds the text of all sections with one accumulator, section after
      section, reading each referenced code file in full. */
  method FormatSections(sections: seq<Section>, files: Files) returns (data: string)
    requires AllCodeReadable(sections, files)
    ensures data == SectionsText(sections, files)
  {
    data := "";
    for i := 0 to |sections|
      invariant AllCodeReadable(sections[..i], files)
      invariant data == SectionsText(sections[..i], files)
    {
      var section := sections[i];
      ghost var before := data;
      if section.title != "" {
        data := data + "## " + section.title + "\n";
        AppendThree(before, "## ", section.title, "\n");
      }
      ghost var afterTitle := data;
      if section.introduction != "" {
        data := data + section.introduction + "\n";
        Append(afterTitle, section.introduction, "\n");
      }
      ghost var afterIntro := data;
      if section.code != "" {
        var contents := files[section.code];
        data := data + "```rust=\n" + contents + "\n```\n";
        AppendThree(afterIntro, FenceOpen, contents, FenceClose);
      }
      ghost var afterCode := data;
      if section.details != "" {
        data := data + section.details + "\n";
        Append(afterCode, section.details, "\n");
      }
      ghost var afterDetails := data;
      data := data + "\n" + "----" + "\n" + "\n";
      AppendFour(afterDetails, "\n", "----", "\n", "\n");
      BlockSteps(section, files, before, afterTitle, afterIntro, afterCode, afterDetails, data);
      SectionsTextAppend(sections[..i], section, files);
      TakeOneMore(sections, i);
    }
    assert sections[..|sections|] == sections;
  }

  /** Writes a document: the title line, then the sections' text. Creating the
      output file happens before any code file is read, so when it fails the
      writer returns that error and reads nothing; an unreadable code file is
      a panic in the Rust implementation, hence the precondition. Returns the text that
      reaches the file. */
  method Writer(data: UserData, files: Files, create: IoOutcome, write: IoOutcome) returns (r: Result<string>)
    requires create.Done? ==> AllCodeReadable(data.sections, files)
    ensures create.Failed? ==> r == Err(create.error)
    ensures create.Done? && write.Failed? ==> r == Err(write.error)
    ensures create.Done? && write.Done? ==> r == Ok(DocumentText(data, files))
    ensures r.Ok? && data.title != "" ==>
      |r.value| >= |data.title| + 3 && r.value[..|data.title| + 3] == "# " + data.title + "\n"
  {
    var fileContent := "";
    if data.title != "" {
      fileContent := fileContent + "# " + data.title + "\n";
      AppendThree("", "# ", data.title, "\n");
    }
    assert fileContent == TitleLine(data.title);
    if create.Failed? {
      return Err(create.error);
    }
    var text := FormatSections(data.sections, files);
    fileContent := fileContent + text;
    if write.Failed? {
      return Err(write.error);
    }
    DocumentTitle(data, files);
    r := Ok(fileContent);
  }

  // ---------------------------------------------------------------------------
  // Properties of the specification
  // ---------------------------------------------------------------------------

  lemma TakeOneMore<T>(s: seq<T>, i: nat)
    requires i < |s|
    ensures s[..i + 1] == s[..i] + [s[i]]
  {
  }

  /** The loop body's five steps, each appending one part, add up to one block. */
  lemma BlockSteps(s: Section, files: Files, before: string, t: string, i: string, c: string, d: string, after: string)
    requires CodeReadable(s, files)
    requires t == before + Heading(s.title) && i == t + Line(s.introduction)
    requires c == i + CodeFence(s.code, files) && d == c + Line(s.details) && after == d + Separator
    ensures after == before + Block(s, files)
  {
    Append(before, Heading(s.title), Line(s.introduction));
    Append(before, Heading(s.title) + Line(s.introduction), CodeFence(s.code, files));
    Append(before, Heading(s.title) + Line(s.introduction) + CodeFence(s.code, files), Line(s.details));
    Append(before, Heading(s.title) + Line(s.introduction) + CodeFence(s.code, files) + Line(s.details), Separator);
  }

  lemma Append(s: string, a: string, b: string)
    ensures s + a + b == s + (a + b)
  {
  }

  lemma AppendThree(s: string, a: string, b: string, c: string)
    ensures s + a + b + c == s + (a + b + c)
  {
  }

  lemma AppendFour(s: string, a: string, b: string, c: string, d: string)
    ensures s + a + b + c + d == s + (a + b + c + d)
  {
  }

  /** Appending a section appends its block: the loop's step. */
  lemma SectionsTextAppend(sections: seq<Section>, s: Section, files: Files)
    requires AllCodeReadable(sections, files) && CodeReadable(s, files)
    ensures AllCodeReadable(sections + [s], files)
    ensures SectionsText(sections + [s], files) == SectionsText(sections, files) + Block(s, files)
  {
    BlocksConcat(sections, [s], files);
    assert Blocks([s], files) == [Block(s, files)];
    ConcatAppend(Blocks(sections, files), Block(s, files));
  }

  /** The text of two section lists one after the other is the text of the
      first followed by the text of the second: nothing is reordered, merged
      or dropped. */
  lemma SectionsTextConcat(a: seq<Section>, b: seq<Section>, files: Files)
    requires AllCodeReadable(a, files) && AllCodeReadable(b, files)
    ensures AllCodeReadable(a + b, files)
    ensures SectionsText(a + b, files) == SectionsText(a, files) + SectionsText(b, files)
  {
    BlocksConcat(a, b, files);
    ConcatJoin(Blocks(a, files), Blocks(b, files));
  }

  lemma {:induction false} ConcatAppend(parts: seq<string>, p: string)
    ensures Concat(parts + [p]) == Concat(parts) + p
  {
    if |parts| == 0 {
      assert parts + [p] == [p];
      assert [p][1..] == [];
    } else {
      assert (parts + [p])[1..] == parts[1..] + [p];
      ConcatAppend(parts[1..], p);
      Append(parts[0], Concat(parts[1..]), p);
    }
  }

  lemma {:induction false} ConcatJoin(a: seq<string>, b: seq<string>)
    ensures Concat(a + b) == Concat(a) + Concat(b)
  {
    if |a| == 0 {
      assert a + b == b;
    } else {
      assert (a + b)[1..] == a[1..] + b;
      ConcatJoin(a[1..], b);
      Append(a[0], Concat(a[1..]), Concat(b));
    }
  }

  lemma BlocksConcat(a: seq<Section>, b: seq<Section>, files: Files)
    requires AllCodeReadable(a, files) && AllCodeReadable(b, files)
    ensures AllCodeReadable(a + b, files)
    ensures Blocks(a + b, files) == Blocks(a, files) + Blocks(b, files)
  {
    ReadableConcat(a, b, files);
    var all, left, right := Blocks(a + b, files), Blocks(a, files), Blocks(b, files);
    forall i | 0 <= i < |all| ensures all[i] == (left + right)[i] {
      if i >= |a| {
        assert (a + b)[i] == b[i - |a|];
      }
    }
  }

  lemma ReadableConcat(a: seq<Section>, b: seq<Section>, files: Files)
    requires AllCodeReadable(a, files) && AllCodeReadable(b, files)
    ensures AllCodeReadable(a + b, files)
  {
    forall i | 0 <= i < |a + b| ensures CodeReadable((a + b)[i], files) {
      if i >= |a| {
        assert (a + b)[i] == b[i - |a|];
      }
    }
  }

  lemma ReadableSlice(sections: seq<Section>, lo: nat, hi: nat, files: Files)
    requires AllCodeReadable(sections, files) && lo <= hi <= |sections|
    ensures AllCodeReadable(sections[lo..hi], files)
  {
    forall i | 0 <= i < hi - lo ensures CodeReadable(sections[lo..hi][i], files) {
      assert sections[lo..hi][i] == sections[lo + i];
    }
  }

  /** The block of the k-th section sits between the text of the sections
      before it and the text of the sections after it. */
  lemma SectionsTextAt(sections: seq<Section>, k: nat, files: Files)
    requires AllCodeReadable(sections, files) && k < |sections|
    ensures SectionsText(sections, files)
         == SectionsText(sections[..k], files) + Block(sections[k], files) + SectionsText(sections[k + 1..], files)
  {
    var before, after := sections[..k], sections[k + 1..];
    ReadableSlice(sections, 0, k, files);
    ReadableSlice(sections, k + 1, |sections|, files);
    assert sections == before + [sections[k]] + after;
    SectionsTextAppend(before, sections[k], files);
    SectionsTextConcat(before + [sections[k]], after, files);
  }

  /** A non-empty section list ends with the separator, because its last block does. */
  lemma SectionsTextEndsWithSeparator(sections: seq<Section>, files: Files)
    requires AllCodeReadable(sections, files) && |sections| > 0
    ensures var t := SectionsText(sections, files);
      |t| >= |Separator| && t[|t| - |Separator|..] == Separator
  {
    var n := |sections|;
    assert sections == sections[..n - 1] + [sections[n - 1]];
    SectionsTextAppend(sections[..n - 1], sections[n - 1], files);
    BlockEndsWithSeparator(sections[n - 1], files);
  }

  /** Every block ends with the separator, whatever its fields. */
  lemma BlockEndsWithSeparator(s: Section, files: Files)
    requires CodeReadable(s, files)
    ensures var b := Block(s, files);
      |b| >= |Separator| && b[|b| - |Separator|..] == Separator
  {
  }

  /** The length of a block: each present part adds its field and its framing
      (`## ` and a newline; a newline; the two fence lines; a newline), and the
      separator adds six. */
  lemma BlockLength(s: Section, files: Files)
    requires CodeReadable(s, files)
    ensures |Block(s, files)|
         == PartLength(s.title, 4) + PartLength(s.introduction, 1)
          + (if s.code == "" then 0 else |files[s.code]| + |FenceOpen| + |FenceClose|)
          + PartLength(s.details, 1) + |Separator|
  {
  }

  /** A block is exactly the separator if and only if all four fields of the
      section are empty: no heading, no text, no code fence. */
  lemma BlockIsSeparatorIff(s: Section, files: Files)
    requires CodeReadable(s, files)
    ensures Block(s, files) == Separator
        <==> s.title == "" && s.introduction == "" && s.code == "" && s.details == ""
  {
    BlockLength(s, files);
  }

  /** Inside a block the parts come in a fixed order, at fixed offsets, each
      present exactly when its field is non-empty: heading, introduction,
      code fence holding the file's full text, details, separator. */
  lemma BlockLayout(s: Section, files: Files)
    requires CodeReadable(s, files)
    ensures var b := Block(s, files);
      var h := |Heading(s.title)|;
      var i := h + |Line(s.introduction)|;
      var c := i + |CodeFence(s.code, files)|;
      var d := c + |Line(s.details)|;
      |b| == d + |Separator|
      && (h == 0 <==> s.title == "") && (i == h <==> s.introduction == "")
      && (c == i <==> s.code == "") && (d == c <==> s.details == "")
      && (s.title != "" ==> b[..h] == "## " + s.title + "\n")
      && (s.introduction != "" ==> b[h..i] == s.introduction + "\n")
      && (s.code != "" ==> b[i..c] == "```rust=\n" + files[s.code] + "\n```\n")
      && (s.details != "" ==> b[c..d] == s.details + "\n")
      && b[d..] == Separator
  {
    FiveParts(Heading(s.title), Line(s.introduction), CodeFence(s.code, files), Line(s.details), Separator);
  }

  /** Where each of five concatenated strings sits in the result. */
  lemma FiveParts(p1: string, p2: string, p3: string, p4: string, p5: string)
    ensures var b := p1 + p2 + p3 + p4 + p5;
      var e1 := |p1|;
      var e2 := e1 + |p2|;
      var e3 := e2 + |p3|;
      var e4 := e3 + |p4|;
      |b| == e4 + |p5| && b[..e1] == p1 && b[e1..e2] == p2 && b[e2..e3] == p3 && b[e3..e4] == p4 && b[e4..] == p5
  {
    var b := p1 + p2 + p3 + p4 + p5;
    var e1, e2, e3, e4 := |p1|, |p1| + |p2|, |p1| + |p2| + |p3|, |p1| + |p2| + |p3| + |p4|;
    assert b == (p1 + p2 + p3 + p4) + p5;
    assert b[..e4] == p1 + p2 + p3 + p4;
    assert b[..e3] == p1 + p2 + p3;
    assert b[..e2] == p1 + p2;
    assert b[e1..e2] == b[..e2][e1..];
    assert b[e2..e3] == b[..e3][e2..];
    assert b[e3..e4] == b[..e4][e3..];
  }

  /** With a title the text opens with the `# ` line, followed by the
      sections' text; without one it is the sections' text alone. */
  lemma DocumentTitle(data: UserData, files: Files)
    requires AllCodeReadable(data.sections, files)
    ensures var t := DocumentText(data, files);
      var n := |data.title| + 3;
      if data.title == "" then t == SectionsText(data.sections, files)
      else |t| >= n && t[..n] == "# " + data.title + "\n" && t[n..] == SectionsText(data.sections, files)
  {
    var t := DocumentText(data, files);
    if data.title != "" {
      var line := "# " + data.title + "\n";
      assert t == line + SectionsText(data.sections, files);
      assert t[..|line|] == line;
    }
  }

  /** A document is the title line followed by one block per section, in
      order: the k-th block comes right after the title line and the blocks
      of the sections before it, and right before the blocks of those after it. */
  lemma DocumentBlockAt(data: UserData, files: Files, k: nat)
    requires AllCodeReadable(data.sections, files) && k < |data.sections|
    ensures DocumentText(data, files)
         == TitleLine(data.title) + SectionsText(data.sections[..k], files)
          + Block(data.sections[k], files) + SectionsText(data.sections[k + 1..], files)
  {
    var ss := data.sections;
    SectionsTextAt(ss, k, files);
    Append(TitleLine(data.title), SectionsText(ss[..k], files) + Block(ss[k], files), SectionsText(ss[k + 1..], files));
    Append(TitleLine(data.title), SectionsText(ss[..k], files), Block(ss[k], files));
  }

  /** No title and no sections: nothing is written. */
  lemma EmptyDocument(files: Files)
    ensures DocumentText(UserData("", []), files) == ""
  {
  }

  /** A worked example: a titled document with one section holding a title
      and an introduction. */
  lemma DemoDocument(files: Files)
    ensures DocumentText(UserData("Demo", [Section("Intro", "Hello", "", "")]), files)
         == "# Demo\n## Intro\nHello\n\n----\n\n"
  {
    assert "# Demo\n" + "## Intro\nHello\n\n----\n\n" == "# Demo\n## Intro\nHello\n\n----\n\n";
    var s := Section("Intro", "Hello", "", "");
    DemoBlock(files);
    var blocks := Blocks([s], files);
    assert blocks == [Block(s, files)];
    assert blocks[1..] == [];
    assert Concat(blocks) == Block(s, files) + Concat([]);
    assert SectionsText([s], files) == "## Intro\nHello\n\n----\n\n";
    assert TitleLine("Demo") == "# Demo\n";
  }

  /** The example's only block: heading, introduction, separator. */
  lemma DemoBlock(files: Files)
    ensures Block(Section("Intro", "Hello", "", ""), files) == "## Intro\nHello\n\n----\n\n"
  {
    assert Heading("Intro") == "## Intro\n";
    assert Line("Hello") == "Hello\n";
    assert Separator == "\n----\n\n";
  }
}
