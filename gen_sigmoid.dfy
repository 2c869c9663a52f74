/**
 * The generator script rtl/nn_rgb/gen_sigmoid.py: it fills a lookup table
 * with one quantised logistic value per 17-bit input code, then writes the
 * table into `sigmoid_lut.sv` as the package described in module SvPackage.
 *
 * The floating-point kernel (normalising the index to [-6, 6], the logistic
 * function, scaling by 100 and Python's `round`) is the parameter `q`: `q(i)`
 * is the value the script computes for index `i`.
 */
module GenSigmoid {
  import opened Numerals
  import opened TextLines
  import opened SvPackage
  import opened Wrappers
  import opened SeqFacts

  /** Python's `2**k`. */
  function Pow2(k: nat): nat {
    if k == 0 then 1 else 2 * Pow2(k - 1)
  }

  /** `lut_size`: one entry per 17-bit input code. */
  const LutSize: nat := 131072

  /** The table size is `2**17`, which the declaration spells `131072` in decimal. */
  lemma LutSizeIsPow2()
    ensures LutSize == Pow2(17)
    ensures Decimal(LutSize) == "131072"
  {
    assert Pow2(8) == 256;
    assert Pow2(16) == 65536;
  }

  /**
   * The table-building loop: one append per index, in index order, so entry
   * `i` is the value computed for index `i`.
   */
  method BuildLut(lutSize: nat, q: nat -> nat) returns (lut: seq<nat>)
    ensures |lut| == lutSize
    ensures forall i :: 0 <= i < lutSize ==> lut[i] == q(i)
  {
    lut := [];
    for i := 0 to lutSize
      invariant |lut| == i
      invariant forall j :: 0 <= j < i ==> lut[j] == q(j)
    {
      lut := lut + [q(i)];
    }
  }

  /**
   * The output file, opened with mode 'w': it starts empty (an existing file
   * is truncated) and every write appends to it.
   */
  class OutputFile {
    var contents: string

    constructor ()
      ensures contents == []
    {
      contents := [];
    }

    method Write(s: string)
      modifies this
      ensures contents == old(contents) + s
    {
      contents := contents + s;
    }
  }

  /**
   * The writes of the script, in order: header, declaration with `lutSize`
   * in decimal, the opening of the pattern, every entry but the last with a
   * comma, the last entry, the footer. `lut[-1]` needs a non-empty table.
   */
  method WriteLut(f: OutputFile, lutSize: nat, lut: seq<nat>)
    requires |lut| > 0
    modifies f
    ensures f.contents == old(f.contents) + PackageText(lutSize, lut)
  {
    ghost var s0 := f.contents;
    f.Write(Header);
    var decl := Declaration(lutSize);
    f.Write(decl);
    f.Write(Opening);
    ghost var head := Header + (decl + Opening);
    ghost var s3 := f.contents;
    assert s3 == s0 + head by {
      Assoc(s0 + Header, decl, Opening);
      Assoc(s0, Header, decl + Opening);
    }
    var m := |lut| - 1;
    WriteCommaEntries(f, lut[..m]);
    f.Write(LastEntry(lut[m]));
    ghost var entries := Entries(lut);
    ghost var s5 := f.contents;
    assert s5 == s3 + entries by {
      Assoc(s3, CommaEntries(lut[..m]), LastEntry(lut[m]));
    }
    f.Write(Footer);
    assert f.contents == s0 + head + entries + Footer;
    Assoc4(s0, head, entries, Footer);
  }

  /** The loop over `lut[:-1]`: one comma entry per value, in order. */
  method WriteCommaEntries(f: OutputFile, vals: seq<nat>)
    modifies f
    ensures f.contents == old(f.contents) + CommaEntries(vals)
  {
    ghost var start := f.contents;
    for i := 0 to |vals|
      invariant f.contents == start + CommaEntries(vals[..i])
    {
      ghost var before := CommaEntries(vals[..i]);
      var entry := CommaEntry(vals[i]);
      assert CommaEntries(vals[..i + 1]) == before + entry by {
        assert vals[..i + 1][..i] == vals[..i];
      }
      f.Write(entry);
      Assoc(start, before, entry);
    }
    assert vals[..|vals|] == vals;
  }

  /**
   * The whole script: build the 2^17-entry table, write it to a fresh file,
   * and return the table and the file's text. The text declares the table's
   * own length and parses back to the table; when every computed value is a
   * byte (the script's values are percentages), every entry line carries
   * exactly two hex digits.
   */
  method Generate(q: nat -> nat) returns (lut: seq<nat>, text: string)
    ensures |lut| == LutSize == 131072
    ensures forall i :: 0 <= i < LutSize ==> lut[i] == q(i)
    ensures text == PackageText(LutSize, lut)
    ensures ParsePackage(text) == Some(Table(|lut|, lut))
    ensures (forall i :: 0 <= i < LutSize ==> q(i) < 256) ==>
      var ls := Lines(text);
      |ls| == |lut| + 6 &&
      forall k :: 0 <= k < |lut| ==> IsByteEntryLine(ls[3 + k], lut[k], k == |lut| - 1)
  {
    lut := BuildLut(LutSize, q);
    var f := new OutputFile();
    WriteLut(f, LutSize, lut);
    text := f.contents;
    PackageRoundTrip(LutSize, lut);
    if forall i :: 0 <= i < LutSize ==> q(i) < 256 {
      assert forall k :: 0 <= k < |lut| ==> lut[k] < 256;
      ByteEntryLines(LutSize, lut);
    }
  }
}
