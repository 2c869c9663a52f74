/**
 * The text of the generated SystemVerilog package `sigmoid_package`: what the
 * successive writes of rtl/nn_rgb/gen_sigmoid.py put in the output file, the
 * same text seen as lines, and a parser for it. The package declares a
 * constant `logic [7:0]` array set by an assignment pattern `'{ ... }`
 * (section 10.9 of IEEE 1800-2017) whose elements are sized hexadecimal
 * literals `8'hXX` (section 5.7.1 of IEEE 1800-2017).
 */
module SvPackage {
  import opened Wrappers
  import opened Numerals
  import opened TextLines
  import opened SeqFacts

  // ---------------------------------------------------------------------
  // The writes, in program order
  // ---------------------------------------------------------------------

  /** First write: the package header and a blank line. */
  const Header: string := "package sigmoid_package;\n\n"

  /** Second write: the array declaration, ending at the closing bracket. */
  function Declaration(lutSize: nat): string {
    "const logic [7:0] sigmoid_lut [" + Decimal(lutSize) + "]"
  }

  /** Third write: the start of the assignment pattern, no space before `=`. */
  const Opening: string := "= '{\n"

  /** The literal `8'hXX` for one entry. */
  function EntryLiteral(v: nat): string {
    "8'h" + Hex02(v)
  }

  /** The write for each entry but the last. */
  function CommaEntry(v: nat): string {
    EntryLiteral(v) + ",\n"
  }

  /** The write for the last entry: no comma. */
  function LastEntry(v: nat): string {
    EntryLiteral(v) + "\n"
  }

  /** The writes of the loop over `lut[:-1]`, in table order. */
  function CommaEntries(vals: seq<nat>): string {
    if vals == [] then []
    else CommaEntries(vals[..|vals| - 1]) + CommaEntry(vals[|vals| - 1])
  }

  /** Last write: the end of the pattern and of the package. */
  const Footer: string := "};\n\nendpackage\n"

  /** The writes for the entries: the loop over `lut[:-1]`, then `lut[-1]`. */
  function Entries(lut: seq<nat>): string
    requires |lut| > 0
  {
    CommaEntries(lut[..|lut| - 1]) + LastEntry(lut[|lut| - 1])
  }

  /**
   * The whole output for a table `lut` declared with `lutSize` entries. The
   * last entry is `lut[-1]`, which does not exist for an empty table.
   */
  function PackageText(lutSize: nat, lut: seq<nat>): string
    requires |lut| > 0
  {
    Header + (Declaration(lutSize) + Opening) + Entries(lut) + Footer
  }

  // ---------------------------------------------------------------------
  // The same text, line by line
  // ---------------------------------------------------------------------

  const HeaderLine: string := "package sigmoid_package;"
  const DeclarationPrefix: string := "const logic [7:0] sigmoid_lut ["
  const DeclarationSuffix: string := "]= '{"
  const EntryPrefix: string := "8'h"
  const FooterLines: seq<string> := ["};", "", "endpackage"]

  function DeclarationLine(lutSize: nat): string {
    DeclarationPrefix + Decimal(lutSize) + DeclarationSuffix
  }

  /** Entry line: a comma after every entry but the last. */
  function EntryLine(v: nat, last: bool): string {
    EntryLiteral(v) + (if last then "" else ",")
  }

  function EntryLines(lut: seq<nat>): seq<string> {
    seq(|lut|, k requires 0 <= k < |lut| => EntryLine(lut[k], k == |lut| - 1))
  }

  function HeadLines(lutSize: nat): seq<string> {
    [HeaderLine, "", DeclarationLine(lutSize)]
  }

  function PackageLines(lutSize: nat, lut: seq<nat>): seq<string> {
    HeadLines(lutSize) + EntryLines(lut) + FooterLines
  }

  // ---------------------------------------------------------------------
  // Parser
  // ---------------------------------------------------------------------

  /** What a package file declares: the bracketed size and the entries. */
  datatype Table = Table(declaredSize: nat, entries: seq<nat>)

  /**
   * A run of digits of `base`, at least `width` long and with no leading
   * zero beyond that width, and its value.
   */
  function ParseDigits(s: string, base: nat, width: nat): Option<nat> {
    if AllDigits(s, base) && Canonical(s, width) then Some(ValueOf(s, base)) else None
  }

  function ParseDeclarationLine(line: string): Option<nat> {
    var p, q := |DeclarationPrefix|, |DeclarationSuffix|;
    if |line| >= p + q && line[..p] == DeclarationPrefix && line[|line| - q..] == DeclarationSuffix
    then ParseDigits(line[p..|line| - q], 10, 1)
    else None
  }

  /** `8'h`, upper-case hex digits, and a comma unless it is the last entry. */
  function ParseEntryLine(line: string, last: bool): Option<nat> {
    var q := if last then 0 else 1;
    if |line| >= 3 + q && line[..3] == EntryPrefix && (last || line[|line| - 1] == ',')
    then ParseDigits(line[3..|line| - q], 16, 2)
    else None
  }

  /** One value per line; only the final line goes without a comma. */
  function ParseEntryLines(ls: seq<string>): (r: Option<seq<nat>>)
    ensures r.Some? ==> |r.value| == |ls| && |ls| > 0
    decreases |ls|
  {
    if ls == [] then None
    else
      match ParseEntryLine(ls[0], |ls| == 1)
      case None => None
      case Some(v) =>
        if |ls| == 1 then Some([v])
        else
          match ParseEntryLines(ls[1..])
          case None => None
          case Some(vs) => Some([v] + vs)
  }

  /** Reads a whole package file back into its declared size and entries. */
  function ParsePackage(text: string): Option<Table> {
    var ls := Lines(text);
    if text == [] || text[|text| - 1] != '\n' || |ls| < 6 then None
    else if ls[0] != HeaderLine || ls[1] != "" || ls[|ls| - 3..] != FooterLines then None
    else
      match (ParseDeclarationLine(ls[2]), ParseEntryLines(ls[3..|ls| - 3]))
      case (Some(n), Some(vs)) => Some(Table(n, vs))
      case _ => None
  }

  // ---------------------------------------------------------------------
  // Properties of the output
  // ---------------------------------------------------------------------

  /** The output opens with the package header and a blank line. */
  lemma PackageStartsWithHeader(lutSize: nat, lut: seq<nat>)
    requires |lut| > 0
    ensures |Header| <= |PackageText(lutSize, lut)|
    ensures PackageText(lutSize, lut)[..|Header|] == "package sigmoid_package;\n\n"
  {
    Parts4(Header, Declaration(lutSize) + Opening, Entries(lut), Footer);
  }

  /**
   * Right after the header come the declaration, with the size in decimal
   * inside brackets, and directly after it `= '{` and a newline.
   */
  lemma DeclarationFollowsHeader(lutSize: nat, lut: seq<nat>)
    requires |lut| > 0
    ensures var d := "const logic [7:0] sigmoid_lut [" + Decimal(lutSize) + "]" + "= '{\n";
      |Header| + |d| <= |PackageText(lutSize, lut)| &&
      PackageText(lutSize, lut)[|Header|..|Header| + |d|] == d
  {
    Parts4(Header, Declaration(lutSize) + Opening, Entries(lut), Footer);
  }

  /** The output closes with `};`, a blank line and `endpackage`. */
  lemma PackageEndsWithFooter(lutSize: nat, lut: seq<nat>)
    requires |lut| > 0
    ensures |Footer| <= |PackageText(lutSize, lut)|
    ensures var t := PackageText(lutSize, lut);
      t[|t| - |Footer|..] == "};\n\nendpackage\n"
  {
    Parts4(Header, Declaration(lutSize) + Opening, Entries(lut), Footer);
  }

  predicate NoNewlines(ls: seq<string>) {
    forall k :: 0 <= k < |ls| ==> NoNewline(ls[k])
  }

  lemma NoNewlinesAppend(a: seq<string>, b: seq<string>)
    requires NoNewlines(a) && NoNewlines(b)
    ensures NoNewlines(a + b)
  {
    forall k | 0 <= k < |a + b| ensures NoNewline((a + b)[k]) {
      if k >= |a| { assert (a + b)[k] == b[k - |a|]; }
    }
  }

  lemma DigitsHaveNoNewline(s: string, base: nat)
    requires AllDigits(s, base)
    ensures NoNewline(s)
  {
    forall i | 0 <= i < |s| ensures s[i] != '\n' {
      assert IsDigit(s[i], base);
    }
  }

  lemma EntryLineHasNoNewline(v: nat, last: bool)
    ensures NoNewline(EntryLine(v, last))
  {
    Hex02Denotes(v);
    DigitsHaveNoNewline(Hex02(v), 16);
    var l := EntryLine(v, last);
    forall i | 0 <= i < |l| ensures l[i] != '\n' {
      if 3 <= i < 3 + |Hex02(v)| { assert l[i] == Hex02(v)[i - 3]; }
    }
  }

  lemma HeadLinesHaveNoNewline(lutSize: nat)
    ensures NoNewlines(HeadLines(lutSize))
  {
    DecimalDenotes(lutSize);
    var d := Decimal(lutSize);
    DigitsHaveNoNewline(d, 10);
    var l := DeclarationLine(lutSize);
    var p := |DeclarationPrefix|;
    forall i | 0 <= i < |l| ensures l[i] != '\n' {
      if p <= i < p + |d| { assert l[i] == d[i - p]; }
    }
    assert NoNewline(HeaderLine);
  }

  lemma PackageLinesHaveNoNewline(lutSize: nat, lut: seq<nat>)
    ensures NoNewlines(PackageLines(lutSize, lut))
  {
    HeadLinesHaveNoNewline(lutSize);
    var es := EntryLines(lut);
    forall k | 0 <= k < |es| ensures NoNewline(es[k]) {
      EntryLineHasNoNewline(lut[k], k == |lut| - 1);
    }
    assert NoNewlines(FooterLines);
    NoNewlinesAppend(HeadLines(lutSize), es);
    NoNewlinesAppend(HeadLines(lutSize) + es, FooterLines);
  }

  /** The first write is the header line and a blank line. */
  lemma HeaderAsLines()
    ensures Unlines([HeaderLine, ""]) == Header
  {
    assert [HeaderLine, ""][1..][1..] == [];
    assert Unlines([""]) == "\n";
    assert Unlines([HeaderLine, ""]) == HeaderLine + "\n" + "\n";
  }

  /** The second and third writes make up the declaration line. */
  lemma DeclarationAsLine(lutSize: nat)
    ensures Unlines([DeclarationLine(lutSize)]) == Declaration(lutSize) + Opening
  {
    var d := Decimal(lutSize);
    assert [DeclarationLine(lutSize)][1..] == [];
    Assoc(DeclarationPrefix + d, DeclarationSuffix, "\n");
    Assoc(DeclarationPrefix + d, "]", "= '{\n");
    assert DeclarationSuffix + "\n" == "]" + "= '{\n";
  }

  /** The first three writes are the header line, a blank line and the declaration line. */
  lemma HeadAsLines(lutSize: nat)
    ensures Unlines(HeadLines(lutSize)) == Header + (Declaration(lutSize) + Opening)
  {
    assert HeadLines(lutSize) == [HeaderLine, ""] + [DeclarationLine(lutSize)];
    UnlinesAppend([HeaderLine, ""], [DeclarationLine(lutSize)]);
    HeaderAsLines();
    DeclarationAsLine(lutSize);
  }

  /** The last write is the lines `};`, blank and `endpackage`. */
  lemma FooterAsLines()
    ensures Unlines(FooterLines) == Footer
  {
    assert FooterLines[1..][1..][1..] == [];
  }

  /** The lines of the loop over `lut[:-1]`, each with its comma. */
  function CommaLines(vals: seq<nat>): seq<string> {
    seq(|vals|, k requires 0 <= k < |vals| => EntryLine(vals[k], false))
  }

  lemma CommaLinesSnoc(vals: seq<nat>)
    requires vals != []
    ensures CommaLines(vals) == CommaLines(vals[..|vals| - 1]) + [EntryLine(vals[|vals| - 1], false)]
  {
    var m := |vals| - 1;
    var a, b := CommaLines(vals), CommaLines(vals[..m]) + [EntryLine(vals[m], false)];
    assert |a| == |b|;
    forall k | 0 <= k < |a| ensures a[k] == b[k] {
      if k < m { assert b[k] == CommaLines(vals[..m])[k]; }
    }
  }

  /** The loop's writes are the comma lines of its entries, joined. */
  lemma {:induction false} CommaEntriesAsLines(vals: seq<nat>)
    ensures CommaEntries(vals) == Unlines(CommaLines(vals))
    decreases |vals|
  {
    if vals != [] {
      var m := |vals| - 1;
      CommaEntriesAsLines(vals[..m]);
      CommaLinesSnoc(vals);
      UnlinesAppend(CommaLines(vals[..m]), [EntryLine(vals[m], false)]);
      assert Unlines([EntryLine(vals[m], false)]) == CommaEntry(vals[m]) by {
        assert [EntryLine(vals[m], false)][1..] == [];
      }
    }
  }

  /** The entry writes are the entry lines, joined. */
  lemma EntriesAsLines(lut: seq<nat>)
    requires |lut| > 0
    ensures Entries(lut) == Unlines(EntryLines(lut))
  {
    var m := |lut| - 1;
    var commas := CommaLines(lut[..m]);
    var last := [EntryLine(lut[m], true)];
    assert EntryLines(lut) == commas + last;
    CommaEntriesAsLines(lut[..m]);
    UnlinesAppend(commas, last);
    assert Unlines(last) == LastEntry(lut[m]) by { assert last[1..] == []; }
  }

  /** The output is exactly the package's lines, each ended by a newline. */
  lemma PackageTextAsLines(lutSize: nat, lut: seq<nat>)
    requires |lut| > 0
    ensures PackageText(lutSize, lut) == Unlines(PackageLines(lutSize, lut))
  {
    var head, es := HeadLines(lutSize), EntryLines(lut);
    UnlinesAppend(head, es);
    UnlinesAppend(head + es, FooterLines);
    HeadAsLines(lutSize);
    EntriesAsLines(lut);
    FooterAsLines();
  }

  /** Splitting the output at its newlines gives the package's lines. */
  lemma LinesOfPackageText(lutSize: nat, lut: seq<nat>)
    requires |lut| > 0
    ensures Lines(PackageText(lutSize, lut)) == PackageLines(lutSize, lut)
  {
    PackageTextAsLines(lutSize, lut);
    PackageLinesHaveNoNewline(lutSize, lut);
    LinesOfUnlines(PackageLines(lutSize, lut));
  }

  /** Where each part of the package sits among its lines. */
  lemma PackageLinesParts(lutSize: nat, lut: seq<nat>)
    requires |lut| > 0
    ensures var pl := PackageLines(lutSize, lut);
      |pl| == |lut| + 6 && pl[..3] == HeadLines(lutSize) &&
      pl[3..|pl| - 3] == EntryLines(lut) && pl[|pl| - 3..] == FooterLines &&
      forall k :: 0 <= k < |lut| ==> pl[3 + k] == EntryLine(lut[k], k == |lut| - 1)
  {
    var pl, es := PackageLines(lutSize, lut), EntryLines(lut);
    Parts3(HeadLines(lutSize), es, FooterLines);
    forall k | 0 <= k < |lut| ensures pl[3 + k] == EntryLine(lut[k], k == |lut| - 1) {
      assert pl[3 + k] == pl[3..|pl| - 3][k];
    }
  }

  /**
   * Split into lines, the output is the header, a blank line, the
   * declaration, one line per entry in table order (a comma on all but the
   * last), then `};`, a blank line and `endpackage`.
   */
  lemma PackageLinesShape(lutSize: nat, lut: seq<nat>)
    requires |lut| > 0
    ensures var ls := Lines(PackageText(lutSize, lut));
      |ls| == |lut| + 6 &&
      ls[0] == "package sigmoid_package;" && ls[1] == "" &&
      ls[2] == "const logic [7:0] sigmoid_lut [" + Decimal(lutSize) + "]= '{" &&
      (forall k :: 0 <= k < |lut| - 1 ==> ls[3 + k] == "8'h" + Hex02(lut[k]) + ",") &&
      ls[|lut| + 2] == "8'h" + Hex02(lut[|lut| - 1]) &&
      ls[|lut| + 3..] == ["};", "", "endpackage"]
  {
    LinesOfPackageText(lutSize, lut);
    PackageLinesParts(lutSize, lut);
    var pl := PackageLines(lutSize, lut);
    assert pl[0] == pl[..3][0] && pl[1] == pl[..3][1] && pl[2] == pl[..3][2];
  }

  /**
   * `l` is the line of a byte entry `v`: `8'h`, exactly two upper-case hex
   * digits that denote `v`, and a comma unless it is the last entry.
   */
  predicate IsByteEntryLine(l: string, v: nat, last: bool) {
    v < 256 && |l| == (if last then 5 else 6) && l[..3] == "8'h" &&
    l[3..5] == [DigitChar(v / 16), DigitChar(v % 16)] &&
    AllDigits(l[3..5], 16) && ValueOf(l[3..5], 16) == v &&
    (last || l[5] == ',')
  }

  lemma ByteEntryLine(v: nat, last: bool)
    requires v < 256
    ensures IsByteEntryLine(EntryLine(v, last), v, last)
  {
    Hex02OfByte(v);
    Hex02Denotes(v);
    var l := EntryLine(v, last);
    assert l == "8'h" + Hex02(v) + (if last then "" else ",");
    assert l[3..5] == Hex02(v);
  }

  /**
   * When every entry is a byte, each entry line, in table order, is `8'h`
   * and exactly two upper-case hex digits that give the entry back.
   */
  lemma ByteEntryLines(lutSize: nat, lut: seq<nat>)
    requires |lut| > 0
    requires forall k :: 0 <= k < |lut| ==> lut[k] < 256
    ensures var ls := Lines(PackageText(lutSize, lut));
      |ls| == |lut| + 6 &&
      forall k :: 0 <= k < |lut| ==> IsByteEntryLine(ls[3 + k], lut[k], k == |lut| - 1)
  {
    LinesOfPackageText(lutSize, lut);
    PackageLinesParts(lutSize, lut);
    var pl := PackageLines(lutSize, lut);
    forall k | 0 <= k < |lut| ensures IsByteEntryLine(pl[3 + k], lut[k], k == |lut| - 1) {
      ByteEntryLine(lut[k], k == |lut| - 1);
    }
  }

  lemma ParseEntryLineOf(v: nat, last: bool)
    ensures ParseEntryLine(EntryLine(v, last), last) == Some(v)
  {
    var l, h := EntryLine(v, last), Hex02(v);
    Hex02Denotes(v);
    var q := if last then 0 else 1;
    assert l == "8'h" + h + (if last then "" else ",");
    assert l[..3] == EntryPrefix;
    assert l[3..|l| - q] == h;
  }

  lemma {:induction false} ParseEntryLinesOfEntries(ls: seq<string>, vals: seq<nat>)
    requires |ls| == |vals| > 0
    requires forall k :: 0 <= k < |ls| ==> ls[k] == EntryLine(vals[k], k == |ls| - 1)
    ensures ParseEntryLines(ls) == Some(vals)
    decreases |ls|
  {
    if |ls| == 1 {
      ParseEntryLineOf(vals[0], true);
      assert vals == [vals[0]];
    } else {
      var tl, tv := ls[1..], vals[1..];
      forall k | 0 <= k < |tl| ensures tl[k] == EntryLine(tv[k], k == |tl| - 1) {
        assert tl[k] == ls[k + 1];
      }
      ParseEntryLinesOfEntries(tl, tv);
      ParseEntryLineOf(vals[0], false);
      assert vals == [vals[0]] + tv;
    }
  }

  lemma ParseDeclarationLineOf(lutSize: nat)
    ensures ParseDeclarationLine(DeclarationLine(lutSize)) == Some(lutSize)
  {
    var d := Decimal(lutSize);
    DecimalDenotes(lutSize);
    Parts3(DeclarationPrefix, d, DeclarationSuffix);
  }

  /**
   * Round trip: parsing the output recovers the declared size and every
   * entry, in order, whatever the entries' size.
   */
  lemma PackageRoundTrip(lutSize: nat, lut: seq<nat>)
    requires |lut| > 0
    ensures ParsePackage(PackageText(lutSize, lut)) == Some(Table(lutSize, lut))
  {
    var pl := PackageLines(lutSize, lut);
    LinesOfPackageText(lutSize, lut);
    PackageTextAsLines(lutSize, lut);
    PackageLinesParts(lutSize, lut);
    UnlinesEndsWithNewline(pl);
    assert pl[0] == pl[..3][0] && pl[1] == pl[..3][1] && pl[2] == pl[..3][2];
    ParseDeclarationLineOf(lutSize);
    ParseEntryLinesOfEntries(EntryLines(lut), lut);
  }

  /** Different tables or declared sizes never give the same text. */
  lemma PackageTextInjective(n1: nat, lut1: seq<nat>, n2: nat, lut2: seq<nat>)
    requires |lut1| > 0 && |lut2| > 0
    requires PackageText(n1, lut1) == PackageText(n2, lut2)
    ensures n1 == n2 && lut1 == lut2
  {
    PackageRoundTrip(n1, lut1);
    PackageRoundTrip(n2, lut2);
  }

  // ---------------------------------------------------------------------
  // The parser accepts exactly the writer's output
  // ---------------------------------------------------------------------

  /** An entry line parses to `v` exactly when it is the line written for `v`. */
  lemma ParseEntryLineExact(line: string, v: nat, last: bool)
    ensures ParseEntryLine(line, last) == Some(v) <==> line == EntryLine(v, last)
  {
    if line == EntryLine(v, last) {
      ParseEntryLineOf(v, last);
    }
    if ParseEntryLine(line, last) == Some(v) {
      var q := if last then 0 else 1;
      var h, tail := line[3..|line| - q], line[|line| - q..];
      Hex02Unique(h);
      assert tail == if last then "" else ",";
      assert line == line[..3] + h + tail;
    }
  }

  /** The declaration line parses to `n` exactly when it is the line written for `n`. */
  lemma ParseDeclarationLineExact(line: string, n: nat)
    ensures ParseDeclarationLine(line) == Some(n) <==> line == DeclarationLine(n)
  {
    if line == DeclarationLine(n) {
      ParseDeclarationLineOf(n);
    }
    if ParseDeclarationLine(line) == Some(n) {
      var p, q := |DeclarationPrefix|, |DeclarationSuffix|;
      var d := line[p..|line| - q];
      DecimalUnique(d);
      assert line == line[..p] + d + line[|line| - q..];
    }
  }

  /** What the entry-line parser accepts is the entry lines of its result. */
  lemma {:induction false} ParseEntryLinesExact(ls: seq<string>, vals: seq<nat>)
    requires ParseEntryLines(ls) == Some(vals)
    ensures ls == EntryLines(vals)
    decreases |ls|
  {
    var v := vals[0];
    ParseEntryLineExact(ls[0], v, |ls| == 1);
    if |ls| > 1 {
      var tv := vals[1..];
      ParseEntryLinesExact(ls[1..], tv);
      var es := EntryLines(vals);
      forall k | 0 <= k < |ls| ensures ls[k] == es[k] {
        if k > 0 {
          assert ls[k] == ls[1..][k - 1] == EntryLines(tv)[k - 1];
        }
      }
    }
  }

  /** Whatever the parser accepts is the output for the table it returns. */
  lemma ParsePackageExact(text: string, t: Table)
    requires ParsePackage(text) == Some(t)
    ensures |t.entries| > 0 && text == PackageText(t.declaredSize, t.entries)
  {
    var ls := Lines(text);
    var n, vs := t.declaredSize, t.entries;
    var mid := ls[3..|ls| - 3];
    ParseDeclarationLineExact(ls[2], n);
    ParseEntryLinesExact(mid, vs);
    assert ls[..3] == HeadLines(n);
    Parts3(ls[..3], mid, ls[|ls| - 3..]);
    assert ls == ls[..3] + mid + ls[|ls| - 3..];
    UnlinesOfLines(text);
    PackageTextAsLines(n, vs);
  }

  /**
   * The parser and the writer are inverse: a text parses to a table
   * exactly when it is that table's output.
   */
  lemma ParsePackageIff(text: string, lutSize: nat, lut: seq<nat>)
    ensures ParsePackage(text) == Some(Table(lutSize, lut)) <==>
      |lut| > 0 && text == PackageText(lutSize, lut)
  {
    if ParsePackage(text) == Some(Table(lutSize, lut)) {
      ParsePackageExact(text, Table(lutSize, lut));
    }
    if |lut| > 0 && text == PackageText(lutSize, lut) {
      PackageRoundTrip(lutSize, lut);
    }
  }
}
