/**
 * `generate_word_doc` (src/bot/bot.py): the generated filing is a Word
 * document holding a fixed level-1 heading and one paragraph per non-blank
 * line of the model's answer, saved under a name stamped with the time of
 * day. The document object is modelled by the blocks it holds, in order;
 * writing it to disk is left to the caller (Handlers).
 */
module Filing {

  import opened Text

  const Title := "Заявление о признании гражданина банкротом"
  const TitleLevel := 1
  const FileNamePrefix := "Заявление_"
  const FileNameSuffix := ".docx"

  /** A block of the document body, in the order it was added. */
  datatype Block = Heading(text: string, level: nat) | Paragraph(text: string)

  // ---------------------------------------------------------------------
  // The paragraphs of a filing
  // ---------------------------------------------------------------------

  /** What one line contributes: its stripped form, unless that is empty. */
  function Kept(line: string): seq<string>
  {
    var t := Strip(line);
    if t == "" then [] else [t]
  }

  /** The stripped non-blank lines, in input order. */
  function NonBlank(lines: seq<string>): seq<string>
  {
    if lines == [] then [] else NonBlank(lines[..|lines| - 1]) + Kept(lines[|lines| - 1])
  }

  /** The paragraphs a filing text yields: split on '\n', strip, drop blanks. */
  function Paragraphs(text: string): seq<string>
  {
    NonBlank(Split(text, '\n'))
  }

  /** A paragraph as the document holds it: non-empty, no leading or trailing
      whitespace, no line break. */
  predicate WellFormedParagraph(p: string)
  {
    p != "" && !IsSpace(p[0]) && !IsSpace(p[|p| - 1]) && '\n' !in p
  }

  /** One paragraph block per paragraph, in order. */
  function ParagraphBlocks(ps: seq<string>): seq<Block>
  {
    seq(|ps|, k requires 0 <= k < |ps| => Paragraph(ps[k]))
  }

  /** The document built from a filing text: the heading, then its paragraphs. */
  function Rendered(text: string): seq<Block>
  {
    [Heading(Title, TitleLevel)] + ParagraphBlocks(Paragraphs(text))
  }

  /** One more line adds what that line keeps. */
  lemma NonBlankStep(lines: seq<string>, i: nat)
    requires i < |lines|
    ensures NonBlank(lines[..i + 1]) == NonBlank(lines[..i]) + Kept(lines[i])
  {
    assert lines[..i + 1][..i] == lines[..i];
  }

  /** A paragraph is in the output exactly when it is the stripped,
      non-empty form of one of the lines. */
  lemma {:induction false} NonBlankMembers(lines: seq<string>, p: string)
    ensures p in NonBlank(lines) <==> p != "" && exists i :: 0 <= i < |lines| && Strip(lines[i]) == p
  {
    if lines != [] {
      var init := lines[..|lines| - 1];
      NonBlankMembers(init, p);
      if p != "" && exists i :: 0 <= i < |lines| && Strip(lines[i]) == p {
        var i :| 0 <= i < |lines| && Strip(lines[i]) == p;
        if i < |lines| - 1 {
          assert init[i] == lines[i];
        }
      }
      if exists i :: 0 <= i < |init| && Strip(init[i]) == p {
        var i :| 0 <= i < |init| && Strip(init[i]) == p;
        assert lines[i] == init[i];
      }
    }
  }

  /** Every paragraph of a filing is well formed. */
  lemma {:induction false} ParagraphsWellFormed(text: string)
    ensures forall p :: p in Paragraphs(text) ==> WellFormedParagraph(p)
  {
    var lines := Split(text, '\n');
    forall p | p in Paragraphs(text)
      ensures WellFormedParagraph(p)
    {
      NonBlankMembers(lines, p);
      var i :| 0 <= i < |lines| && Strip(lines[i]) == p;
      SplitPiecesFree(text, '\n');
      StripSpec(lines[i]);
    }
  }

  /** Lines that are already well-formed paragraphs pass through unchanged. */
  lemma {:induction false} NonBlankOfWellFormed(ps: seq<string>)
    requires forall i :: 0 <= i < |ps| ==> WellFormedParagraph(ps[i])
    ensures NonBlank(ps) == ps
  {
    if ps != [] {
      var init, last := ps[..|ps| - 1], ps[|ps| - 1];
      assert forall i :: 0 <= i < |init| ==> WellFormedParagraph(init[i]) by {
        forall i | 0 <= i < |init| ensures WellFormedParagraph(init[i]) {
          assert init[i] == ps[i];
        }
      }
      NonBlankOfWellFormed(init);
      assert Kept(last) == [last] by {
        assert WellFormedParagraph(last);
        StripFixedPoint(last);
      }
      InitLast(ps);
    }
  }

  /** Normalising is idempotent: the paragraphs of the joined paragraphs are
      the paragraphs themselves. */
  lemma ParagraphsIdempotent(text: string)
    ensures Paragraphs(Join(Paragraphs(text), '\n')) == Paragraphs(text)
  {
    var ps := Paragraphs(text);
    ParagraphsWellFormed(text);
    assert forall i :: 0 <= i < |ps| ==> WellFormedParagraph(ps[i]) by {
      forall i | 0 <= i < |ps| ensures WellFormedParagraph(ps[i]) {
        assert ps[i] in ps;
      }
    }
    if ps == [] {
      assert Join(ps, '\n') == "";
      assert Split("", '\n') == [""];
      assert NonBlank([""]) == NonBlank([]) + Kept("");
    } else {
      SplitJoin(ps, '\n');
      NonBlankOfWellFormed(ps);
    }
  }

  /** The document is the fixed heading followed by exactly the paragraphs,
      one block each, in order. */
  lemma RenderedShape(text: string)
    ensures var doc := Rendered(text); var ps := Paragraphs(text);
      |doc| == 1 + |ps| && doc[0] == Heading(Title, TitleLevel) &&
      forall k :: 0 <= k < |ps| ==> doc[k + 1] == Paragraph(ps[k])
  {
  }

  /** The lines of two paragraphs separated by a blank line, the second
      padded and followed by a final line break. */
  lemma BlankLinesSplit(a: string, b: string, w: string)
    requires '\n' !in a && '\n' !in b + w
    ensures Split(a + "\n\n" + b + w + "\n", '\n') == [a, "", b + w, ""]
  {
    var lines := [a, "", b + w, ""];
    assert Join(lines, '\n') == a + "\n\n" + b + w + "\n" by {
      assert Join(lines[3..], '\n') == "";
      assert Join(lines[2..], '\n') == b + w + "\n";
      assert Join(lines[1..], '\n') == "\n" + b + w + "\n";
    }
    SplitJoin(lines, '\n');
  }

  /** Two paragraphs separated by a blank line, the second followed by
      trailing blanks and a final line break, come out as just the two
      paragraphs. */
  lemma BlankLinesDropped(a: string, b: string, w: string)
    requires WellFormedParagraph(a) && WellFormedParagraph(b)
    requires '\n' !in w && forall i :: 0 <= i < |w| ==> IsSpace(w[i])
    ensures Paragraphs(a + "\n\n" + b + w + "\n") == [a, b]
  {
    var lines := [a, "", b + w, ""];
    assert '\n' !in b + w;
    BlankLinesSplit(a, b, w);
    PaddedKept(a, []);
    assert a + [] == a;
    PaddedKept(b, w);
    FourLines(a, b + w, a, b);
  }

  /** A paragraph followed by trailing blanks keeps just the paragraph. */
  lemma PaddedKept(b: string, w: string)
    requires WellFormedParagraph(b)
    requires forall i :: 0 <= i < |w| ==> IsSpace(w[i])
    ensures Kept(b + w) == [b]
  {
    assert (b + w)[0] == b[0];
    assert TrimStart(b + w) == b + w;
    TrimEndPadded(b, w);
  }

  /** Four lines, two of them blank, keep what the other two keep. */
  lemma FourLines(x: string, y: string, a: string, b: string)
    requires Kept(x) == [a] && Kept(y) == [b]
    ensures NonBlank([x, "", y, ""]) == [a, b]
  {
    assert Kept("") == [];
    assert NonBlank([x]) == [a] by {
      assert [x][..0] == [];
    }
    assert NonBlank([x, ""]) == [a] by {
      assert [x, ""][..1] == [x];
    }
    assert NonBlank([x, "", y]) == [a, b] by {
      assert [x, "", y][..2] == [x, ""];
    }
    assert [x, "", y, ""][..3] == [x, "", y];
  }

  /** The worked example: `"Line A\n\nLine B  \n"` gives `["Line A", "Line B"]`. */
  lemma ParagraphsExample()
    ensures Paragraphs("Line A\n\nLine B  \n") == ["Line A", "Line B"]
  {
    assert "Line A\n\nLine B  \n" == "Line A" + "\n\n" + "Line B" + "  " + "\n";
    BlankLinesDropped("Line A", "Line B", "  ");
  }

  // ---------------------------------------------------------------------
  // The document object and generate_word_doc
  // ---------------------------------------------------------------------

  /** The python-docx document: a body of blocks, extended at the end. */
  class WordDocument {
    var blocks: seq<Block>

    constructor ()
      ensures blocks == []
    {
      blocks := [];
    }

    method AddHeading(text: string, level: nat)
      modifies this
      ensures blocks == old(blocks) + [Heading(text, level)]
    {
      blocks := blocks + [Heading(text, level)];
    }

    method AddParagraph(text: string)
      modifies this
      ensures blocks == old(blocks) + [Paragraph(text)]
    {
      blocks := blocks + [Paragraph(text)];
    }
  }

  /** Adding a paragraph block to a document extends its paragraphs. */
  lemma AppendParagraph(ps: seq<string>, p: string)
    ensures [Heading(Title, TitleLevel)] + ParagraphBlocks(ps) + [Paragraph(p)] ==
      [Heading(Title, TitleLevel)] + ParagraphBlocks(ps + [p])
  {
    assert ParagraphBlocks(ps) + [Paragraph(p)] == ParagraphBlocks(ps + [p]);
  }

  /** Builds the filing document for `text` and the name it is saved under
      at time `now`. */
  method GenerateWordDoc(text: string, now: Clock) returns (doc: WordDocument, fileName: string)
    ensures fresh(doc)
    ensures doc.blocks == Rendered(text)
    ensures fileName == FileName(now)
  {
    doc := new WordDocument();
    doc.AddHeading(Title, TitleLevel);
    var lines := Split(text, '\n');
    var i := 0;
    ghost var kept: seq<string> := [];
    while i < |lines|
      invariant 0 <= i <= |lines|
      invariant kept == NonBlank(lines[..i])
      invariant doc.blocks == [Heading(Title, TitleLevel)] + ParagraphBlocks(kept)
    {
      var stripped := Strip(lines[i]);
      NonBlankStep(lines, i);
      if stripped != "" {
        doc.AddParagraph(stripped);
        AppendParagraph(kept, stripped);
        kept := kept + [stripped];
      }
      i := i + 1;
    }
    assert lines[..|lines|] == lines;
    fileName := FileNamePrefix + TimeStamp(now) + FileNameSuffix;
  }

  // ---------------------------------------------------------------------
  // File name: Заявление_HHMMSS.docx
  // ---------------------------------------------------------------------

  type Hour = n: nat | n < 24
  type Minute = n: nat | n < 60
  type Second = n: nat | n < 60

  /** The wall-clock time of day the name is stamped with. */
  datatype Clock = Clock(hour: Hour, minute: Minute, second: Second)

  predicate IsDigit(c: char)
  {
    '0' <= c <= '9'
  }

  function DigitValue(c: char): int
  {
    c as int - '0' as int
  }

  /** A number below 100 as two decimal digits, zero-padded. */
  function TwoDigits(n: nat): (r: string)
    requires n < 100
    ensures |r| == 2 && IsDigit(r[0]) && IsDigit(r[1])
    ensures DigitValue(r[0]) * 10 + DigitValue(r[1]) == n
  {
    [('0' as int + n / 10) as char, ('0' as int + n % 10) as char]
  }

  /** `strftime("%H%M%S")`. */
  function TimeStamp(now: Clock): string
  {
    TwoDigits(now.hour) + TwoDigits(now.minute) + TwoDigits(now.second)
  }

  function FileName(now: Clock): string
  {
    FileNamePrefix + TimeStamp(now) + FileNameSuffix
  }

  /** Reads a six-digit stamp back into hours, minutes and seconds. */
  function ParseTimeStamp(stamp: string): (int, int, int)
    requires |stamp| == 6
  {
    (DigitValue(stamp[0]) * 10 + DigitValue(stamp[1]),
     DigitValue(stamp[2]) * 10 + DigitValue(stamp[3]),
     DigitValue(stamp[4]) * 10 + DigitValue(stamp[5]))
  }

  /** The name is the fixed prefix, exactly six digits that read back as the
      time, and the extension; so two different times of day never give the
      same name, and the same second always does. */
  lemma FileNameFormat(now: Clock)
    ensures var name := FileName(now); var stamp := TimeStamp(now);
      name == FileNamePrefix + stamp + FileNameSuffix &&
      |stamp| == 6 && (forall i :: 0 <= i < 6 ==> IsDigit(stamp[i])) &&
      ParseTimeStamp(stamp) == (now.hour as int, now.minute as int, now.second as int)
  {
    var stamp := TimeStamp(now);
    var h, m, s := TwoDigits(now.hour), TwoDigits(now.minute), TwoDigits(now.second);
    assert stamp[0] == h[0] && stamp[1] == h[1];
    assert stamp[2] == m[0] && stamp[3] == m[1];
    assert stamp[4] == s[0] && stamp[5] == s[1];
  }

  lemma FileNameInjective(a: Clock, b: Clock)
    ensures FileName(a) == FileName(b) <==> a == b
  {
    if FileName(a) == FileName(b) {
      FileNameFormat(a);
      FileNameFormat(b);
      var n := |FileNamePrefix|;
      assert TimeStamp(a) == FileName(a)[n..n + 6];
      assert TimeStamp(b) == FileName(b)[n..n + 6];
    }
  }
}
