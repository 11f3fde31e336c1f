/** The assembler as it runs: one pass over the lines fills the instruction memory and the label
    table, a second pass resolves the labels in place. */
module Emulators {
  import opened Words
  import opened AsmModel

  class Emulator {
    const at: Layout
    const imem: array<Instr>
    var labels: seq<Loc>
    var memoff: nat

    /** The operand fields of the unused words hold whatever they hold. */
    constructor (at: Layout, junk: nat -> Instr)
      requires forall x: nat :: x < at.data / 4 ==> Untyped(junk, x)
      ensures this.at == at && Fresh(junk) && fresh(imem)
    {
      this.at := at;
      imem := new Instr[at.data / 4](x requires 0 <= x => junk(x));
      labels, memoff := [], 0;
    }

    ghost predicate Fresh(blank: nat -> Instr)
      reads this, imem
    {
      && imem.Length == at.data / 4 && labels == [] && memoff == 0
      && forall x: nat :: x < imem.Length ==> imem[x] == blank(x)
    }

    /** The first `i` lines have been read. */
    ghost predicate ReadSoFar(lines: seq<Line>, blank: nat -> Instr, i: nat)
      requires i <= |lines|
      reads this, imem
    {
      && imem.Length == at.data / 4
      && memoff == Place(at, lines, i) && labels == Labels(at, lines, i)
      && forall x: nat :: x < imem.Length ==> imem[x] == Image(at, lines, blank, i, x)
    }

    /** First pass: false when an instruction would start in the data section. */
    method Parse(lines: seq<Line>, ghost blank: nat -> Instr) returns (ok: bool)
      requires Fresh(blank) && Fits(at, lines)
      modifies this`labels, this`memoff, imem
      ensures ok <==> forall k :: 0 <= k < |lines| && lines[k].Code? ==> Place(at, lines, k) + 4 <= at.data
      ensures ok ==> ReadSoFar(lines, blank, |lines|)
    {
      hide Fits, Labels, Image, Place, ReadSoFar;
      Unread(lines, blank);
      for i := 0 to |lines|
        invariant ReadSoFar(lines, blank, i)
        invariant forall k :: 0 <= k < i && lines[k].Code? ==> Place(at, lines, k) + 4 <= at.data
      {
        ok := ParseLine(lines, blank, i, lines[i]);
        if !ok { return; }
      }
      ok := true;
    }

    lemma Unread(lines: seq<Line>, blank: nat -> Instr)
      requires Fresh(blank)
      ensures ReadSoFar(lines, blank, 0)
    {}

    /** One line: `line` is line `i` of the file. */
    method ParseLine(ghost lines: seq<Line>, ghost blank: nat -> Instr, ghost i: nat, line: Line) returns (ok: bool)
      requires i < |lines| && line == lines[i] && ReadSoFar(lines, blank, i) && Fits(at, lines)
      modifies this`labels, this`memoff, imem
      ensures ok <==> (line.Code? ==> Place(at, lines, i) + 4 <= at.data)
      ensures ok ==> ReadSoFar(lines, blank, i + 1)
    {
      hide Written;
      assert LineFits(at, lines, i);
      ok := true;
      match line {
        case Text => memoff := at.text;
        case Data => memoff := at.data;
        case Elements(size, count) => memoff := memoff + size * count;
        case Label(name) => labels := labels + [Loc(name, memoff)];
        case Code(stmt) =>
          if memoff + 4 > at.data { return false; }
          var base := memoff / 4;
          imem[base] := Written(stmt, 0, imem[base]);
          if Size(stmt) == 2 { imem[base + 1] := Written(stmt, 1, imem[base + 1]); }
          memoff := memoff + 4 * Size(stmt);
      }
    }

    /** Second pass: every word is resolved in place; false at the first that cannot be. */
    method NormalizeLabels() returns (ok: bool)
      modifies imem
      ensures ok <==> forall x: nat :: x < imem.Length ==> Resolve(labels, old(imem[x]), x).Some?
      ensures ok ==> forall x: nat :: x < imem.Length ==> Resolve(labels, old(imem[x]), x) == Some(imem[x])
    {
      hide Resolve;
      for i := 0 to imem.Length
        invariant forall x: nat :: x < i ==> Resolve(labels, old(imem[x]), x) == Some(imem[x])
        invariant forall x: nat :: i <= x < imem.Length ==> imem[x] == old(imem[x])
      {
        var r := Resolve(labels, imem[i], i);
        if r == None { return false; }
        imem[i] := r.value;
      }
      ok := true;
    }

    /** Both passes: exactly the programs that can be assembled are, to the words the model names. */
    method Assemble(lines: seq<Line>, ghost blank: nat -> Instr) returns (ok: bool)
      requires Fresh(blank) && Fits(at, lines) && forall x: nat :: x < imem.Length ==> Untyped(blank, x)
      modifies this`labels, this`memoff, imem
      ensures ok ==> Assembled(at, lines, blank, imem[..])
      ensures ok <==> (forall k :: 0 <= k < |lines| && lines[k].Code? ==> Place(at, lines, k) + 4 <= at.data) &&
                      (forall x: nat :: x < imem.Length ==> Assembly(at, lines, blank, x).Some?)
    {
      hide Resolve, Labels, Image, Fits, Place;
      ok := Parse(lines, blank);
      if ok {
        assert forall x: nat :: x < imem.Length ==> Assembly(at, lines, blank, x) == Resolve(labels, imem[x], x);
        ok := NormalizeLabels();
      }
    }
  }
}
