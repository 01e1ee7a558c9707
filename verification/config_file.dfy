/** The configuration file reader (eden.common.ConfigFileReader): a file
    starts with "<filename>:", holds entry blocks of a header line ending in
    a colon, data lines and a footer line starting with a colon, and ends
    with ":<filename>"; headers, footers and the lead-out may be padded
    with blanks, and blank lines may come before them. `read(filename, index)` returns
    the data of the entry at `index`, its lines joined without separators.
    The file is a sequence of lines; a read past the last line is the end
    of file. */
module ConfigFile {
  import opened Wrappers
  import opened JavaString

  /** The errors `read` raises, with the entry counter they report. */
  datatype ConfigError =
    | BadIndex(index: int)
    | BadSignature(line: string)
    | LeadOutReached(after: int)
    | BadHeader(after: int)
    | EndOfFile(at: int)

  predicate StartsWithColon(s: string) { |s| > 0 && s[0] == ':' }
  predicate EndsWithColon(s: string) { |s| > 0 && s[|s| - 1] == ':' }

  /** A line whose trimmed text starts with the colon: a footer (and, for
      the counting of entries, the lead-out). */
  predicate IsFooter(line: string) { StartsWithColon(Trim(line)) }

  /** Lines 97-102: from line `pos`, with `i` footers counted past the
      first, read lines until the counter reaches `index - 1`; the result is
      the position after the last footer counted. */
  function SkipFooters(lines: seq<string>, pos: nat, i: int, index: int): (r: Result<nat, ConfigError>)
    ensures r.Success? ==> r.value <= |lines| || (r.value == pos && i >= index - 1)
    ensures r.Failure? ==> r.error.EndOfFile?
    decreases |lines| - pos
  {
    if i >= index - 1 then Success(pos)
    else if pos >= |lines| then Failure(EndOfFile(i))
    else SkipFooters(lines, pos + 1, if IsFooter(lines[pos]) then i + 1 else i, index)
  }

  /** Lines 105-107: the first line from `pos` on whose trimmed text is not
      empty. */
  function SkipBlank(lines: seq<string>, pos: nat, i: int): (r: Result<nat, ConfigError>)
    ensures r.Success? ==> pos <= r.value < |lines| && Trim(lines[r.value]) != ""
    ensures r.Success? ==> forall k | pos <= k < r.value :: Trim(lines[k]) == ""
    ensures r.Failure? ==> r.error == EndOfFile(i)
    decreases |lines| - pos
  {
    if pos >= |lines| then Failure(EndOfFile(i))
    else if Trim(lines[pos]) != "" then Success(pos)
    else SkipBlank(lines, pos + 1, i)
  }

  /** The lines of a sequence joined without separators. */
  function Concat(ls: seq<string>): (r: string)
    decreases |ls|
  {
    if |ls| == 0 then "" else ls[0] + Concat(ls[1..])
  }

  /** Lines 112-120: the data lines from `pos` up to the next footer,
      untrimmed and joined. */
  function ReadData(lines: seq<string>, pos: nat, i: int): (r: Result<string, ConfigError>)
    ensures r.Failure? ==> r.error == EndOfFile(i)
    decreases |lines| - pos
  {
    if pos >= |lines| then Failure(EndOfFile(i))
    else if IsFooter(lines[pos]) then Success("")
    else
      match ReadData(lines, pos + 1, i)
      case Success(rest) => Success(lines[pos] + rest)
      case Failure(e) => Failure(e)
  }

  /** `read(filename, index)` over the lines of the file. */
  function Read(filename: string, index: int, lines: seq<string>): (r: Result<string, ConfigError>)
    ensures index < 0 <==> r == Failure(BadIndex(index))
    ensures index >= 0 && |lines| == 0 ==> r == Failure(EndOfFile(-1))
    ensures index >= 0 && |lines| > 0 && lines[0] != filename + ":" ==> r == Failure(BadSignature(lines[0]))
    ensures r.Failure? && index >= 0 ==> !r.error.BadIndex?
  {
    if index < 0 then Failure(BadIndex(index))
    else if |lines| == 0 then Failure(EndOfFile(-1))
    else if lines[0] != filename + ":" then Failure(BadSignature(lines[0]))
    else
      match SkipFooters(lines, 1, -1, index)
      case Failure(e) => Failure(e)
      case Success(p) =>
        match SkipBlank(lines, p, index - 1)
        case Failure(e) => Failure(e)
        case Success(q) =>
          var next := Trim(lines[q]);
          if EndsWithColon(next) then ReadData(lines, q + 1, index - 1)
          else if next == ":" + filename then Failure(LeadOutReached(index - 1))
          else Failure(BadHeader(index - 1))
  }

  /** A line that `trim()` empties: the blank lines the reader skips
      between entry blocks. */
  predicate Blank(line: string) { Trim(line) == "" }

  /** The characters written before and after the text of a line. */
  datatype Pad = Pad(before: string, after: string)

  /** Padding that `trim()` takes off: characters up to U+0020 only. */
  predicate Trimmable(pad: Pad) { AllTrimmable(pad.before) && AllTrimmable(pad.after) }

  function Padded(pad: Pad, text: string): string { pad.before + text + pad.after }

  /** An entry block as written: the blank lines before it, the padding of
      its header and of its footer line, its header name and its data
      lines. */
  datatype Entry = Entry(blanks: seq<string>, headerPad: Pad, footerPad: Pad, header: string, data: seq<string>)

  /** A name whose first and last characters are above U+0020, so that
      `trim()` leaves it alone. */
  predicate Clean(s: string) {
    |s| > 0 && !IsTrimmable(s[0]) && !IsTrimmable(s[|s| - 1])
  }

  /** The entries `read` can find: blank lines before the block, padding
      of characters up to U+0020, a clean header that does not start with
      the colon, and data lines that do not look like footers. */
  predicate WellFormedEntry(e: Entry) {
    && (forall k | 0 <= k < |e.blanks| :: Blank(e.blanks[k]))
    && Trimmable(e.headerPad) && Trimmable(e.footerPad)
    && Clean(e.header) && e.header[0] != ':'
    && forall k | 0 <= k < |e.data| :: !IsFooter(e.data[k])
  }

  function HeaderLine(e: Entry): string { Padded(e.headerPad, e.header + ":") }
  function FooterLine(e: Entry): string { Padded(e.footerPad, ":" + e.header) }

  /** The lines of one entry block. */
  function Block(e: Entry): (r: seq<string>)
    ensures |r| == |e.blanks| + |e.data| + 2
  {
    e.blanks + [HeaderLine(e)] + e.data + [FooterLine(e)]
  }

  /** The blocks of a series of entries, one after another. */
  function Body(es: seq<Entry>): seq<string>
    decreases |es|
  {
    if |es| == 0 then [] else Body(es[..|es| - 1]) + Block(es[|es| - 1])
  }

  /** The signature line and the blocks of a series of entries. */
  function Opening(filename: string, es: seq<Entry>): seq<string> {
    [filename + ":"] + Body(es)
  }

  /** How a file ends: blank lines, then the lead-out ":<filename>" with
      padding before and after it. */
  datatype LeadOut = LeadOut(blanks: seq<string>, pad: Pad)

  predicate WellFormedLeadOut(lo: LeadOut) {
    && (forall k | 0 <= k < |lo.blanks| :: Blank(lo.blanks[k]))
    && Trimmable(lo.pad)
  }

  function LeadOutLine(filename: string, lo: LeadOut): string { Padded(lo.pad, ":" + filename) }

  /** A file as the format describes it: the signature, the blocks, the
      lead-out. */
  function Render(filename: string, es: seq<Entry>, lo: LeadOut): seq<string> {
    Opening(filename, es) + lo.blanks + [LeadOutLine(filename, lo)]
  }

  /** The line at which block `j` starts. */
  function Start(es: seq<Entry>, j: nat): nat
    requires j <= |es|
  {
    1 + |Body(es[..j])|
  }

  /** The blocks end where the lead-out part begins. */
  lemma OpeningLength(filename: string, es: seq<Entry>)
    ensures |Opening(filename, es)| == Start(es, |es|)
  {
    assert es[..|es|] == es;
  }

  /** The lines of block `j` sit at its start. */
  lemma {:induction false} BlockAt(filename: string, es: seq<Entry>, j: nat)
    requires j < |es|
    ensures Start(es, j) + |Block(es[j])| == Start(es, j + 1) <= |Opening(filename, es)|
    ensures Opening(filename, es)[Start(es, j)..Start(es, j + 1)] == Block(es[j])
  {
    assert es[..j + 1][..j] == es[..j];
    assert Body(es[..j + 1]) == Body(es[..j]) + Block(es[j]);
    BodyPrefix(es, j + 1);
    var L := Opening(filename, es);
    var b := Body(es);
    var pre := Body(es[..j + 1]);
    assert pre <= b;
    forall k | 0 <= k < |Block(es[j])|
      ensures L[Start(es, j) + k] == Block(es[j])[k]
    {
      assert L[Start(es, j) + k] == b[|Body(es[..j])| + k] == pre[|Body(es[..j])| + k];
    }
  }

  /** Entry `e` is written out at line `p` of `lines`: its blank lines, its
      header, its data lines and its footer. */
  predicate BlockAtLine(lines: seq<string>, p: nat, e: Entry) {
    var h := p + |e.blanks|;
    && h + 1 + |e.data| < |lines|
    && lines[p..h] == e.blanks
    && lines[h] == HeaderLine(e)
    && lines[h + 1..h + 1 + |e.data|] == e.data
    && lines[h + 1 + |e.data|] == FooterLine(e)
  }

  /** Line by line: the blank lines, the header, the data lines and the
      footer of block `j`. */
  lemma {:induction false} BlockLines(filename: string, es: seq<Entry>, j: nat)
    requires j < |es|
    ensures BlockAtLine(Opening(filename, es), Start(es, j), es[j])
    ensures Start(es, j + 1) == Start(es, j) + |es[j].blanks| + 2 + |es[j].data|
  {
    BlockAt(filename, es, j);
    var L := Opening(filename, es);
    var p := Start(es, j);
    var e := es[j];
    var B := Block(e);
    var h := |e.blanks|;
    var n := |e.data|;
    var S := L[p..Start(es, j + 1)];
    assert S == B;
    forall i | 0 <= i < h
      ensures L[p..p + h][i] == e.blanks[i]
    {
      assert L[p + i] == S[i] == B[i];
    }
    assert L[p + h] == S[h] == B[h];
    forall i | 0 <= i < n
      ensures L[p + h + 1..p + h + 1 + n][i] == e.data[i]
    {
      assert L[p + h + 1 + i] == S[h + 1 + i] == B[h + 1 + i];
    }
    assert L[p + h + 1 + n] == S[h + 1 + n] == B[h + 1 + n];
  }

  /** In a written-out well-formed entry only the footer line is a footer;
      the blank lines before the header are blank. */
  lemma OnlyFooterIsFooter(lines: seq<string>, p: nat, e: Entry)
    requires WellFormedEntry(e) && BlockAtLine(lines, p, e)
    ensures forall k | p <= k < p + |e.blanks| + 1 + |e.data| :: !IsFooter(lines[k])
    ensures forall k | p <= k < p + |e.blanks| :: Blank(lines[k])
    ensures IsFooter(lines[p + |e.blanks| + 1 + |e.data|])
    ensures Trim(lines[p + |e.blanks|]) == e.header + ":" && EndsWithColon(Trim(lines[p + |e.blanks|]))
    ensures !Blank(lines[p + |e.blanks|])
  {
    HeaderFooterTrim(e);
    var h := p + |e.blanks|;
    var n := |e.data|;
    BlanksAt(lines, p, e);
    DataLinesAt(lines, p, e);
    forall k | p <= k < h + 1 + n ensures !IsFooter(lines[k]) {
      if k < h {
        assert Blank(lines[k]);
      }
    }
  }

  /** The lines before the header of a written-out well-formed entry are
      blank. */
  lemma BlanksAt(lines: seq<string>, p: nat, e: Entry)
    requires WellFormedEntry(e) && BlockAtLine(lines, p, e)
    ensures forall k | p <= k < p + |e.blanks| :: Blank(lines[k])
  {
    var h := p + |e.blanks|;
    forall k | p <= k < h ensures Blank(lines[k]) {
      assert lines[k] == lines[p..h][k - p];
    }
  }

  /** The data lines of a written-out well-formed entry are not footers. */
  lemma DataLinesAt(lines: seq<string>, p: nat, e: Entry)
    requires WellFormedEntry(e) && BlockAtLine(lines, p, e)
    ensures forall k | p + |e.blanks| + 1 <= k < p + |e.blanks| + 1 + |e.data| :: !IsFooter(lines[k])
  {
    var h := p + |e.blanks|;
    var n := |e.data|;
    forall k | h + 1 <= k < h + 1 + n ensures !IsFooter(lines[k]) {
      assert lines[k] == lines[h + 1..h + 1 + n][k - h - 1];
    }
  }

  /** The blocks of the first `j` entries begin the blocks of all. */
  lemma {:induction false} BodyPrefix(es: seq<Entry>, j: nat)
    requires j <= |es|
    ensures Body(es[..j]) <= Body(es)
    decreases |es| - j
  {
    if j < |es| {
      BodyPrefix(es, j + 1);
      assert es[..j + 1][..j] == es[..j];
      assert Body(es[..j + 1]) == Body(es[..j]) + Block(es[j]);
    } else {
      assert es[..j] == es;
    }
  }

  /** From line `m` on, `lines` holds the blank lines of `lo` and then
      its lead-out line, the last of the file. */
  predicate EndsWithLeadOut(lines: seq<string>, m: nat, filename: string, lo: LeadOut) {
    && |lines| == m + |lo.blanks| + 1
    && (forall k | 0 <= k < |lo.blanks| :: lines[m + k] == lo.blanks[k])
    && lines[m + |lo.blanks|] == LeadOutLine(filename, lo)
  }

  /** After the blocks come the blank lines of the lead-out part, then the
      lead-out line. */
  lemma LeadOutAt(filename: string, es: seq<Entry>, lo: LeadOut)
    ensures EndsWithLeadOut(Render(filename, es, lo), Start(es, |es|), filename, lo)
  {
    OpeningLength(filename, es);
  }

  /** Lines that are not footers do not move the counter. */
  lemma {:induction false} SkipPlain(lines: seq<string>, p: nat, n: nat, i: int, index: int)
    requires i < index - 1 && p + n <= |lines|
    requires forall k | p <= k < p + n :: !IsFooter(lines[k])
    ensures SkipFooters(lines, p, i, index) == SkipFooters(lines, p + n, i, index)
    decreases n
  {
    if n > 0 {
      SkipPlain(lines, p + 1, n - 1, i, index);
    }
  }

  /** Blank lines are passed over up to the first line that is not. */
  lemma {:induction false} SkipBlanks(lines: seq<string>, p: nat, n: nat, i: int)
    requires p + n < |lines| && !Blank(lines[p + n])
    requires forall k | p <= k < p + n :: Blank(lines[k])
    ensures SkipBlank(lines, p, i) == Success(p + n)
    decreases n
  {
    if n > 0 {
      SkipBlanks(lines, p + 1, n - 1, i);
    }
  }

  /** A clean text padded with characters up to U+0020 trims to the
      text. */
  lemma PaddedTrim(pad: Pad, s: string)
    requires Trimmable(pad) && Clean(s)
    ensures Trim(Padded(pad, s)) == s
  {
    TrimPadded(pad.before, s, pad.after);
  }

  /** The header and footer lines of a well-formed block trim to the
      header name with the colon after or before it. */
  lemma HeaderFooterTrim(e: Entry)
    requires WellFormedEntry(e)
    ensures Trim(HeaderLine(e)) == e.header + ":" && !IsFooter(HeaderLine(e))
    ensures Trim(FooterLine(e)) == ":" + e.header && IsFooter(FooterLine(e))
  {
    PaddedTrim(e.headerPad, e.header + ":");
    PaddedTrim(e.footerPad, ":" + e.header);
  }

  /** `lines` opens like the file of entries `es`: the signature and the
      blocks, whatever follows them. */
  predicate OpensWith(lines: seq<string>, filename: string, es: seq<Entry>) {
    var o := Opening(filename, es);
    |o| <= |lines| && lines[..|o|] == o
  }

  lemma RenderOpens(filename: string, es: seq<Entry>, lo: LeadOut)
    ensures OpensWith(Render(filename, es, lo), filename, es)
  {
    var o := Opening(filename, es);
    assert Render(filename, es, lo)[..|o|] == o;
  }

  /** Blocks start in order: no block starts after the end of the blocks. */
  lemma StartBefore(es: seq<Entry>, j: nat)
    requires j <= |es|
    ensures Start(es, j) <= Start(es, |es|)
  {
    BodyPrefix(es, j);
    assert es[..|es|] == es;
  }

  /** A block that ends before line `m` is also written out in any lines
      that agree with these up to `m`. */
  lemma BlockAtLineShared(a: seq<string>, b: seq<string>, p: nat, e: Entry, m: nat)
    requires BlockAtLine(a, p, e) && p + |e.blanks| + 1 + |e.data| < m <= |a| && m <= |b| && a[..m] == b[..m]
    ensures BlockAtLine(b, p, e)
  {
    forall k | 0 <= k < m ensures a[k] == b[k] {
      assert a[k] == a[..m][k] && b[k] == b[..m][k];
    }
    var h := p + |e.blanks|;
    assert b[p..h] == a[p..h];
    assert b[h + 1..h + 1 + |e.data|] == a[h + 1..h + 1 + |e.data|];
  }

  /** In lines that open with the blocks of `es`, block `j` is written out
      at its start. */
  lemma BlockInLines(lines: seq<string>, filename: string, es: seq<Entry>, j: nat)
    requires OpensWith(lines, filename, es) && j < |es|
    ensures BlockAtLine(lines, Start(es, j), es[j])
    ensures Start(es, j + 1) == Start(es, j) + |es[j].blanks| + 2 + |es[j].data|
  {
    var o := Opening(filename, es);
    BlockLines(filename, es, j);
    BlockAt(filename, es, j);
    assert o[..|o|] == o;
    BlockAtLineShared(o, lines, Start(es, j), es[j], |o|);
  }

  /** Skipping over a whole block counts its footer. */
  lemma {:induction false} SkipBlock(lines: seq<string>, filename: string, es: seq<Entry>, j: nat, index: int)
    requires OpensWith(lines, filename, es)
    requires j < |es| && WellFormedEntry(es[j]) && j - 1 < index - 1
    ensures SkipFooters(lines, Start(es, j), j - 1, index)
              == SkipFooters(lines, Start(es, j + 1), j, index)
  {
    var p := Start(es, j);
    var f := p + |es[j].blanks| + 1 + |es[j].data|;
    BlockInLines(lines, filename, es, j);
    OnlyFooterIsFooter(lines, p, es[j]);
    SkipPlain(lines, p, f - p, j - 1, index);
    assert SkipFooters(lines, f, j - 1, index) == SkipFooters(lines, f + 1, j, index);
  }

  /** Before the entry sought, every block is skipped whole, whatever
      follows the blocks. */
  lemma {:induction false} SkipTo(lines: seq<string>, filename: string, es: seq<Entry>, j: nat, index: int)
    requires OpensWith(lines, filename, es)
    requires j <= |es| && j <= index
    requires forall k | 0 <= k < |es| :: WellFormedEntry(es[k])
    ensures SkipFooters(lines, 1, -1, index) == SkipFooters(lines, Start(es, j), j - 1, index)
    decreases j
  {
    if j > 0 {
      SkipTo(lines, filename, es, j - 1, index);
      SkipBlock(lines, filename, es, j - 1, index);
    } else {
      assert es[..0] == [];
    }
  }

  /** Data lines up to a footer are joined. */
  lemma {:induction false} ReadDataPlain(lines: seq<string>, p: nat, n: nat, i: int)
    requires p + n < |lines| && IsFooter(lines[p + n])
    requires forall k | p <= k < p + n :: !IsFooter(lines[k])
    ensures ReadData(lines, p, i) == Success(Concat(lines[p..p + n]))
    decreases n
  {
    if n > 0 {
      ReadDataPlain(lines, p + 1, n - 1, i);
      assert lines[p..p + n][1..] == lines[p + 1..p + n];
    } else {
      assert lines[p..p] == [];
    }
  }

  /** A well-formed block at line `p`, whatever surrounds it, has its
      header found past its blank lines. */
  lemma HeaderAt(lines: seq<string>, p: nat, e: Entry, i: int)
    requires WellFormedEntry(e) && BlockAtLine(lines, p, e)
    ensures SkipBlank(lines, p, i) == Success(p + |e.blanks|)
    ensures EndsWithColon(Trim(lines[p + |e.blanks|]))
  {
    OnlyFooterIsFooter(lines, p, e);
    SkipBlanks(lines, p, |e.blanks|, i);
  }

  /** A well-formed block at line `p`, whatever surrounds it, is read back
      from after its header up to its footer. */
  lemma DataReadAt(lines: seq<string>, p: nat, e: Entry, i: int)
    requires WellFormedEntry(e) && BlockAtLine(lines, p, e)
    ensures ReadData(lines, p + |e.blanks| + 1, i) == Success(Concat(e.data))
  {
    OnlyFooterIsFooter(lines, p, e);
    ReadDataPlain(lines, p + |e.blanks| + 1, |e.data|, i);
  }

  /** `read` past a good signature: once the skip loop stops at `p` and
      the first non-blank line from there, `q`, is a header, the data after
      it are the result. */
  lemma ReadFound(filename: string, index: int, lines: seq<string>, p: nat, q: nat)
    requires index >= 0 && |lines| > 0 && lines[0] == filename + ":"
    requires SkipFooters(lines, 1, -1, index) == Success(p)
    requires SkipBlank(lines, p, index - 1) == Success(q) && EndsWithColon(Trim(lines[q]))
    ensures Read(filename, index, lines) == ReadData(lines, q + 1, index - 1)
  {
  }

  /** Entry `k` of a file opening with well-formed blocks: the skip loop
      stops at its block, whose header is found past its blank lines and
      whose data are read back. */
  lemma {:induction false} EntryFound(lines: seq<string>, filename: string, es: seq<Entry>, k: nat)
    requires OpensWith(lines, filename, es)
    requires k < |es| && forall j | 0 <= j < |es| :: WellFormedEntry(es[j])
    ensures var p := Start(es, k);
            && SkipFooters(lines, 1, -1, k) == Success(p)
            && SkipBlank(lines, p, k - 1) == Success(p + |es[k].blanks|)
            && EndsWithColon(Trim(lines[p + |es[k].blanks|]))
            && ReadData(lines, p + |es[k].blanks| + 1, k - 1) == Success(Concat(es[k].data))
  {
    SkipTo(lines, filename, es, k, k);
    var p := Start(es, k);
    BlockInLines(lines, filename, es, k);
    HeaderAt(lines, p, es[k], k - 1);
    DataReadAt(lines, p, es[k], k - 1);
  }

  /** Reading any entry of a well-formed file, with blank lines between
      the blocks and padded headers and footers, gives back its data lines,
      joined. */
  lemma {:induction false} ReadRendered(filename: string, es: seq<Entry>, lo: LeadOut, k: nat)
    requires k < |es| && forall j | 0 <= j < |es| :: WellFormedEntry(es[j])
    ensures Read(filename, k, Render(filename, es, lo)) == Success(Concat(es[k].data))
  {
    var L := Render(filename, es, lo);
    RenderOpens(filename, es, lo);
    EntryFound(L, filename, es, k);
    var p := Start(es, k);
    ReadFound(filename, k, L, p, p + |es[k].blanks|);
  }

  /** Two entries, the first indented and the second after a blank line
      with only its header indented. */
  const Indented: seq<Entry> :=
    [Entry([], Pad("  ", ""), Pad("  ", ""), "a", ["x"]),
     Entry([""], Pad(" ", ""), Pad("", ""), "b", ["y"])]

  lemma IndentedWellFormed()
    ensures forall j | 0 <= j < |Indented| :: WellFormedEntry(Indented[j])
  {
    assert Padded(Pad("", ""), "x") == "x" && Padded(Pad("", ""), "y") == "y";
    PaddedTrim(Pad("", ""), "x");
    PaddedTrim(Pad("", ""), "y");
    assert Trim("") == "";
  }

  lemma IndentedLines()
    ensures Render("c", Indented, LeadOut([], Pad("", "")))
              == ["c:", "  a:", "x", "  :a", "", " b:", "y", ":b", ":c"]
  {
    var es := Indented;
    assert es[..1][..0] == [] && es[..2] == es;
    assert HeaderLine(es[0]) == "  a:" by { assert "  " + ("a" + ":") + "" == "  a:"; }
    assert FooterLine(es[0]) == "  :a" by { assert "  " + (":" + "a") + "" == "  :a"; }
    assert HeaderLine(es[1]) == " b:" by { assert " " + ("b" + ":") + "" == " b:"; }
    assert FooterLine(es[1]) == ":b" by { assert "" + (":" + "b") + "" == ":b"; }
    assert LeadOutLine("c", LeadOut([], Pad("", ""))) == ":c" by { assert "" + (":" + "c") + "" == ":c"; }
    assert Body(es[..1]) == ["  a:", "x", "  :a"];
    assert Body(es) == ["  a:", "x", "  :a", "", " b:", "y", ":b"];
    assert Opening("c", es) == ["c:", "  a:", "x", "  :a", "", " b:", "y", ":b"] by {
      assert "c" + ":" == "c:";
    }
  }

  /** An indented file with a blank line between its blocks: the second
      entry reads back. */
  lemma ReadIndented()
    ensures Read("c", 1, ["c:", "  a:", "x", "  :a", "", " b:", "y", ":b", ":c"]) == Success("y")
  {
    IndentedWellFormed();
    IndentedLines();
    ReadRendered("c", Indented, LeadOut([], Pad("", "")), 1);
    assert Concat(["y"]) == "y";
  }

  /** A file name that trims to itself and does not end with the colon. */
  predicate GoodName(filename: string) {
    Clean(filename) && filename[|filename| - 1] != ':'
  }

  /** The lead-out line trims to the colon and the file name. */
  lemma LeadOutTrim(filename: string, lo: LeadOut)
    requires GoodName(filename) && WellFormedLeadOut(lo)
    ensures Trim(LeadOutLine(filename, lo)) == ":" + filename
    ensures IsFooter(LeadOutLine(filename, lo)) && !Blank(LeadOutLine(filename, lo))
  {
    PaddedTrim(lo.pad, ":" + filename);
  }

  /** Past the blocks, the blank lines are skipped and the lead-out line
      is found. */
  lemma LeadOutFound(lines: seq<string>, m: nat, filename: string, lo: LeadOut, i: int)
    requires GoodName(filename) && WellFormedLeadOut(lo) && EndsWithLeadOut(lines, m, filename, lo)
    ensures SkipBlank(lines, m, i) == Success(m + |lo.blanks|)
    ensures Trim(lines[m + |lo.blanks|]) == ":" + filename
  {
    LeadOutTrim(filename, lo);
    forall k | m <= k < m + |lo.blanks| ensures Blank(lines[k]) {
      assert lines[m + (k - m)] == lo.blanks[k - m];
    }
    SkipBlanks(lines, m, |lo.blanks|, i);
  }

  /** Past the blocks, the skip loop counts the lead-out as one more
      footer and reaches the end of the file. */
  lemma LeadOutCounted(lines: seq<string>, m: nat, filename: string, lo: LeadOut, i: int, index: int)
    requires GoodName(filename) && WellFormedLeadOut(lo) && EndsWithLeadOut(lines, m, filename, lo)
    requires i < index - 1
    ensures SkipFooters(lines, m, i, index) == SkipFooters(lines, |lines|, i + 1, index)
  {
    LeadOutTrim(filename, lo);
    var b := |lo.blanks|;
    forall k | m <= k < m + b ensures !IsFooter(lines[k]) {
      assert lines[m + (k - m)] == lo.blanks[k - m];
      assert Blank(lines[k]);
    }
    SkipPlain(lines, m, b, i, index);
    assert IsFooter(lines[m + b]);
  }

  /** `read` past a good signature: once the skip loop stops at `p` and
      the first non-blank line from there, `q`, is not a header, the
      lead-out there is reported as such and anything else as a bad
      header. */
  lemma ReadStops(filename: string, index: int, lines: seq<string>, p: nat, q: nat)
    requires index >= 0 && |lines| > 0 && lines[0] == filename + ":"
    requires SkipFooters(lines, 1, -1, index) == Success(p)
    requires SkipBlank(lines, p, index - 1) == Success(q) && !EndsWithColon(Trim(lines[q]))
    ensures Trim(lines[q]) == ":" + filename ==> Read(filename, index, lines) == Failure(LeadOutReached(index - 1))
    ensures Trim(lines[q]) != ":" + filename ==> Read(filename, index, lines) == Failure(BadHeader(index - 1))
  {
  }

  /** Asking for the entry just past the last reaches the lead-out. */
  lemma {:induction false} ReadLeadOut(filename: string, es: seq<Entry>, lo: LeadOut)
    requires GoodName(filename) && WellFormedLeadOut(lo)
    requires forall j | 0 <= j < |es| :: WellFormedEntry(es[j])
    ensures Read(filename, |es|, Render(filename, es, lo)) == Failure(LeadOutReached(|es| - 1))
  {
    var L := Render(filename, es, lo);
    RenderOpens(filename, es, lo);
    SkipTo(L, filename, es, |es|, |es|);
    var m := Start(es, |es|);
    LeadOutAt(filename, es, lo);
    LeadOutFound(L, m, filename, lo, |es| - 1);
    ReadStops(filename, |es|, L, m, m + |lo.blanks|);
  }

  /** Asking for an entry further on runs into the end of the file, after
      the lead-out has been counted as a footer. */
  lemma {:induction false} ReadPastEnd(filename: string, es: seq<Entry>, lo: LeadOut, index: int)
    requires GoodName(filename) && WellFormedLeadOut(lo)
    requires forall j | 0 <= j < |es| :: WellFormedEntry(es[j])
    requires index > |es|
    ensures Read(filename, index, Render(filename, es, lo)) == Failure(EndOfFile(|es|))
  {
    var L := Render(filename, es, lo);
    RenderOpens(filename, es, lo);
    SkipTo(L, filename, es, |es|, index);
    LeadOutAt(filename, es, lo);
    LeadOutCounted(L, Start(es, |es|), filename, lo, |es| - 1, index);
  }

  /** A file whose well-formed blocks are followed by blank lines and then
      a line that is neither blank, nor a header ending in the colon, nor
      the lead-out: asking for the entry after those blocks reports a bad
      header after the last entry counted. */
  lemma {:induction false} ReadBadHeader(filename: string, es: seq<Entry>, blanks: seq<string>, stray: string, rest: seq<string>)
    requires forall j | 0 <= j < |es| :: WellFormedEntry(es[j])
    requires forall k | 0 <= k < |blanks| :: Blank(blanks[k])
    requires Trim(stray) != "" && !EndsWithColon(Trim(stray)) && Trim(stray) != ":" + filename
    ensures Read(filename, |es|, Opening(filename, es) + blanks + [stray] + rest) == Failure(BadHeader(|es| - 1))
  {
    var o := Opening(filename, es);
    var L := o + blanks + [stray] + rest;
    var m := |o|;
    assert L[..m] == o;
    OpeningLength(filename, es);
    SkipTo(L, filename, es, |es|, |es|);
    assert SkipFooters(L, 1, -1, |es|) == Success(m);
    forall k | m <= k < m + |blanks| ensures Blank(L[k]) {
      assert L[k] == blanks[k - m];
    }
    assert L[m + |blanks|] == stray;
    SkipBlanks(L, m, |blanks|, |es| - 1);
  }
}
