/** The initial data of a global variable: bytes, a sorted list of label relocations over them, and
    the assembler text they become. */
module GlobalData {
  import opened Options
  import opened Words

  datatype Reloc = Reloc(offset: nat, target: string, addend: int)

  // ----- the relocation list -----

  // Strictly increasing offsets.
  ghost predicate Sorted(rs: seq<Reloc>) {
    forall i, j :: 0 <= i < j < |rs| ==> rs[i].offset < rs[j].offset
  }

  // The relocation at an offset, if any.
  function At(rs: seq<Reloc>, offset: nat): Option<Reloc> {
    if rs == [] then None else if rs[0].offset == offset then Some(rs[0]) else At(rs[1..], offset)
  }

  lemma {:induction false} AtMember(rs: seq<Reloc>, i: nat)
    requires Sorted(rs) && i < |rs|
    ensures At(rs, rs[i].offset) == Some(rs[i])
  {
    if i > 0 {
      AtMember(rs[1..], i - 1);
    }
  }

  lemma {:induction false} AtAbsent(rs: seq<Reloc>, offset: nat)
    requires forall i :: 0 <= i < |rs| ==> rs[i].offset != offset
    ensures At(rs, offset) == None
  {
    if rs != [] {
      AtAbsent(rs[1..], offset);
    }
  }

  lemma {:induction false} AtConcat(a: seq<Reloc>, b: seq<Reloc>, offset: nat)
    ensures At(a + b, offset) == if At(a, offset).Some? then At(a, offset) else At(b, offset)
  {
    if a == [] {
      assert a + b == b;
    } else {
      assert (a + b)[1..] == a[1..] + b;
      AtConcat(a[1..], b, offset);
    }
  }

  // ----- bytes -----

  type Byte = b: int | 0 <= b < 256

  // Byte k of the little-endian representation.
  function ByteOf(val: int, k: nat): Byte
    decreases k
  {
    if k == 0 then val % 256 else ByteOf(val / 256, k - 1)
  }

  function Pow256(n: nat): (p: nat)
    ensures p > 0
  {
    if n == 0 then 1 else 256 * Pow256(n - 1)
  }

  // The number that little-endian bytes stand for.
  function FromBytes(bytes: seq<Byte>): nat {
    if bytes == [] then 0 else bytes[0] + 256 * FromBytes(bytes[1..])
  }

  // The first n bytes of a number hold its low 8n bits.
  lemma {:induction false} BytesHold(val: int, bytes: seq<Byte>)
    requires forall i :: 0 <= i < |bytes| ==> bytes[i] == ByteOf(val, i)
    ensures FromBytes(bytes) == val % Pow256(|bytes|)
    decreases |bytes|
  {
    if bytes != [] {
      forall i | 0 <= i < |bytes| - 1 ensures bytes[1..][i] == ByteOf(val / 256, i) {
        assert bytes[i + 1] == ByteOf(val, i + 1);
      }
      BytesHold(val / 256, bytes[1..]);
      LowByte(val, Pow256(|bytes| - 1));
    }
  }

  lemma LowByte(val: int, m: nat)
    requires m > 0
    ensures val % (256 * m) == val % 256 + 256 * (val / 256 % m)
  {
    var a, b := val / 256, val % 256;
    var q, r := a / m, a % m;
    assert a == m * q + r;
    assert val == (256 * m) * q + (256 * r + b);
    assert 256 * r + b < 256 * m;
    ModUnique(val, 256 * m, q, 256 * r + b);
  }

  // What a scalar of the given size occupies: sizes other than 1, 2 and 4 write eight bytes.
  function ScalarBytes(size: nat): nat { if size == 1 || size == 2 || size == 4 then size else 8 }

  function Grown(data: seq<Byte>, need: nat): seq<Byte> {
    if need > |data| then data + seq(need - |data|, _ => 0) else data
  }

  // ----- the text -----

  datatype Datum = OneByte(b: Byte) | Quad(target: string, addend: int) | Zeros(n: nat)
  datatype Cell = Val(b: Byte) | Part(target: string, addend: int, k: nat)

  function Cells(d: Datum): seq<Cell> {
    match d
    case OneByte(b) => [Val(b)]
    case Quad(l, a) => seq(8, k requires 0 <= k => Part(l, a, k))
    case Zeros(n) => seq(n, _ => Val(0))
  }

  function Image(ds: seq<Datum>): seq<Cell> {
    if ds == [] then [] else Image(ds[..|ds| - 1]) + Cells(ds[|ds| - 1])
  }

  // Every relocation lies inside the initialised bytes, and they are at least eight bytes apart.
  ghost predicate InRange(rs: seq<Reloc>, size: nat) {
    forall i :: 0 <= i < |rs| ==> rs[i].offset + 8 <= size
  }

  ghost predicate Spaced(rs: seq<Reloc>) {
    forall i :: 0 < i < |rs| ==> rs[i - 1].offset + 8 <= rs[i].offset
  }

  // The relocation covering position p, if any.
  function Covering(rs: seq<Reloc>, p: nat): Option<Reloc> {
    if rs == [] then None
    else if rs[0].offset <= p < rs[0].offset + 8 then Some(rs[0]) else Covering(rs[1..], p)
  }

  function CellAt(rs: seq<Reloc>, data: seq<Byte>, p: nat): Cell {
    match Covering(rs, p)
    case Some(r) => if p >= r.offset then Part(r.target, r.addend, p - r.offset) else Val(0)
    case None => Val(if p < |data| then data[p] else 0)
  }

  // Each relocation's eight bytes are where it says.
  ghost predicate Placed(image: seq<Cell>, rs: seq<Reloc>) {
    forall i :: 0 <= i < |rs| ==> PlacedAt(image, rs[i])
  }

  ghost predicate PlacedAt(image: seq<Cell>, r: Reloc) {
    r.offset + 8 <= |image| && forall k :: 0 <= k < 8 ==> image[r.offset..][k] == Part(r.target, r.addend, k)
  }

  // Where the emission puts label i: at its offset, or behind the label before it.
  function Start(rs: seq<Reloc>, i: nat): nat
    requires i < |rs|
  {
    if i == 0 then rs[0].offset else Max(rs[i].offset, Start(rs, i - 1) + 8)
  }

  // The position behind the first i labels.
  function Behind(rs: seq<Reloc>, i: nat): nat
    requires i <= |rs|
  {
    if i == 0 then 0 else Start(rs, i - 1) + 8
  }

  function Bytes(data: seq<Byte>, lo: nat, hi: nat): seq<Datum> {
    if lo >= hi || hi > |data| then [] else Bytes(data, lo, hi - 1) + [OneByte(data[hi - 1])]
  }

  // The lines up to label i.
  function Labels(rs: seq<Reloc>, data: seq<Byte>, i: nat): seq<Datum>
    requires i <= |rs|
  {
    if i == 0 then []
    else
      var r := rs[i - 1];
      Labels(rs, data, i - 1) + Bytes(data, Behind(rs, i - 1), r.offset) + [Quad(r.target, r.addend)]
  }

  // All the lines.
  function Emitted(rs: seq<Reloc>, data: seq<Byte>, tySize: nat): seq<Datum> {
    Labels(rs, data, |rs|) + Bytes(data, Behind(rs, |rs|), |data|) + if tySize > |data| then [Zeros(tySize - |data|)] else []
  }

  ghost predicate StartsAt(image: seq<Cell>, pos: nat, r: Reloc) {
    pos < |image| && image[pos] == Part(r.target, r.addend, 0)
  }

  lemma {:induction false} CoveringMember(rs: seq<Reloc>, i: nat, p: nat)
    requires Sorted(rs) && Spaced(rs) && i < |rs| && rs[i].offset <= p < rs[i].offset + 8
    ensures Covering(rs, p) == Some(rs[i])
  {
    if i > 0 {
      SpacedApart(rs, 0, i);
      assert forall j :: 0 < j < |rs[1..]| ==> rs[1..][j - 1] == rs[j] && rs[1..][j] == rs[j + 1];
      CoveringMember(rs[1..], i - 1, p);
    }
  }

  lemma {:induction false} SpacedApart(rs: seq<Reloc>, i: nat, j: nat)
    requires Spaced(rs) && i < j < |rs|
    ensures rs[i].offset + 8 <= rs[j].offset
    decreases j
  {
    if i < j - 1 {
      SpacedApart(rs, i, j - 1);
    }
  }

  lemma {:induction false} CoveringNone(rs: seq<Reloc>, p: nat)
    requires forall i :: 0 <= i < |rs| ==> !(rs[i].offset <= p < rs[i].offset + 8)
    ensures Covering(rs, p) == None
  {
    if rs != [] {
      CoveringNone(rs[1..], p);
    }
  }

  // Relocations that overlap cannot all be where they say.
  lemma NotPlaced(image: seq<Cell>, rs: seq<Reloc>)
    requires Sorted(rs) && !Spaced(rs)
    ensures !Placed(image, rs)
  {
    var i :| 0 < i < |rs| && rs[i - 1].offset + 8 > rs[i].offset;
    if PlacedAt(image, rs[i - 1]) && rs[i].offset + 8 <= |image| {
      Overlapping(image, rs[i - 1], rs[i]);
    }
  }

  lemma Overlapping(image: seq<Cell>, r: Reloc, q: Reloc)
    requires PlacedAt(image, r) && r.offset < q.offset < r.offset + 8 && q.offset + 8 <= |image|
    ensures !PlacedAt(image, q)
  {
    assert image[r.offset..][q.offset - r.offset] == image[q.offset..][0];
  }

  // ----- the variable -----

  class Global {
    var relocs: seq<Reloc>
    var data: seq<Byte>              // init_data; its length is init_size

    ghost predicate Valid() reads this { Sorted(relocs) }

    constructor ()
      ensures Valid() && relocs == [] && data == []
    {
      relocs, data := [], [];
    }

    // append_reloc: sorted insertion, replacing an entry at the same offset.
    method AppendReloc(offset: nat, target: string, addend: int)
      requires Valid()
      modifies this`relocs
      ensures Valid()
      ensures forall o :: At(relocs, o) == if o == offset then Some(Reloc(offset, target, addend)) else At(old(relocs), o)
    {
      var rel := Reloc(offset, target, addend);
      ghost var rs := relocs;
      var cur := 0;
      while cur < |relocs| && relocs[cur].offset < offset
        invariant cur <= |relocs| && relocs == rs
        invariant forall i :: 0 <= i < cur ==> relocs[i].offset < offset
      {
        cur := cur + 1;
      }
      if cur < |relocs| && relocs[cur].offset == offset {
        Inserted(rs, cur, 1, rel);
        relocs := relocs[..cur] + [rel] + relocs[cur + 1..];
      } else {
        Inserted(rs, cur, 0, rel);
        relocs := relocs[..cur] + [rel] + relocs[cur..];
      }
    }

    // remove_reloc
    method RemoveReloc(offset: nat)
      requires Valid()
      modifies this`relocs
      ensures Valid()
      ensures forall o :: At(relocs, o) == if o == offset then None else At(old(relocs), o)
    {
      ghost var rs := relocs;
      var cur := 0;
      while cur < |relocs| && relocs[cur].offset != offset
        invariant cur <= |relocs| && relocs == rs
        invariant forall i :: 0 <= i < cur ==> relocs[i].offset != offset
      {
        cur := cur + 1;
      }
      if cur < |relocs| {
        TakenOut(rs, cur);
        relocs := relocs[..cur] + relocs[cur + 1..];
      } else {
        AtAbsent(rs, offset);
      }
    }

    // ensure_init_size: the arena hands out zeroed memory.
    method EnsureInitSize(offset: nat, size: nat)
      modifies this`data
      ensures data == Grown(old(data), offset + size)
    {
      var need := offset + size;
      if need > |data| {
        data := data + seq(need - |data|, _ => 0);
      }
    }

    // write_scalar_bytes: the scalar replaces the bytes and a relocation at the same offset.
    method WriteScalarBytes(offset: nat, size: nat, val: int)
      requires Valid() && ScalarBytes(size) <= size
      modifies this
      ensures Valid()
      ensures forall o :: At(relocs, o) == if o == offset then None else At(old(relocs), o)
      ensures |data| == |Grown(old(data), offset + size)|
      ensures forall p :: 0 <= p < |data| ==>
        data[p] == if offset <= p < offset + ScalarBytes(size) then ByteOf(val, p - offset) else Grown(old(data), offset + size)[p]
    {
      EnsureInitSize(offset, size);
      RemoveReloc(offset);
      ghost var before, rs := data, relocs;
      var n, v := ScalarBytes(size), val;
      for k := 0 to n
        invariant |data| == |before| && n <= size && relocs == rs
        invariant forall j :: k <= j < n ==> ByteOf(val, j) == ByteOf(v, j - k)
        invariant forall p :: 0 <= p < |data| ==> data[p] == if offset <= p < offset + k then ByteOf(val, p - offset) else before[p]
      {
        assert ByteOf(val, k) == ByteOf(v, 0);
        data := data[offset + k := v % 256];
        v := v / 256;
      }
    }

    // The lines emitted for the variable, tySize being the size of its type.
    method Emit(tySize: nat) returns (text: seq<Datum>)
      requires Valid() && InRange(relocs, |data|) && |data| <= tySize
      ensures Spaced(relocs) ==>
        var image := Image(text);
        |image| == tySize && forall p :: 0 <= p < tySize ==> image[p] == CellAt(relocs, data, p)
      ensures Placed(Image(text), relocs) <==> Spaced(relocs)
      ensures forall i :: 0 <= i < |relocs| ==> StartsAt(Image(text), Start(relocs, i), relocs[i])
    {
      hide Image, CellAt, Placed, StartsAt, Sorted, Spaced, Labels, Bytes, Behind, Start, Emitted;
      text := [];
      var pos := 0;
      NoLabels(relocs, data);
      for i := 0 to |relocs|
        invariant text == Labels(relocs, data, i) && pos == Behind(relocs, i)
      {
        var rel := relocs[i];
        ghost var from, before := pos, text;
        NoBytes(data, from, before);
        while pos < rel.offset
          invariant text == before + Bytes(data, from, pos) && from <= pos && (pos > from ==> pos <= rel.offset)
        {
          OneMoreByte(data, from, pos, before);
          text := text + [OneByte(data[pos])];
          pos := pos + 1;
        }
        OneMoreLabel(relocs, data, i, pos);
        text := text + [Quad(rel.target, rel.addend)];
        pos := pos + 8;
      }
      ghost var from, before := pos, text;
      NoBytes(data, from, before);
      while pos < |data|
        invariant text == before + Bytes(data, from, pos) && from <= pos && (pos > from ==> pos <= |data|)
      {
        OneMoreByte(data, from, pos, before);
        text := text + [OneByte(data[pos])];
        pos := pos + 1;
      }
      AllLines(relocs, data, tySize, pos);
      if tySize > |data| {
        text := text + [Zeros(tySize - |data|)];
      }
      EmittedMeans(relocs, data, tySize);
    }
  }

  // ----- steps of the list operations -----

  // Putting rel at position k in place of n entries.
  lemma Inserted(rs: seq<Reloc>, k: nat, n: nat, rel: Reloc)
    requires Sorted(rs) && k + n <= |rs| && n <= 1
    requires (forall i :: 0 <= i < k ==> rs[i].offset < rel.offset)
    requires if n == 1 then rs[k].offset == rel.offset else k < |rs| ==> rs[k].offset > rel.offset
    ensures var rs1 := rs[..k] + [rel] + rs[k + n..];
      Sorted(rs1) && forall o :: At(rs1, o) == if o == rel.offset then Some(rel) else At(rs, o)
  {
    hide Sorted, At;
    var a, mid, b := rs[..k], rs[k..k + n], rs[k + n..];
    assert rs == a + mid + b;
    assert mid == if n == 0 then [] else [rs[k]];
    var rs1 := a + [rel] + b;
    InsertedSorted(rs, k, n, rel);
    forall o
      ensures At(rs1, o) == if o == rel.offset then Some(rel) else At(rs, o)
    {
      Replaced(a, mid, b, rel, o);
    }
  }

  lemma InsertedSorted(rs: seq<Reloc>, k: nat, n: nat, rel: Reloc)
    requires Sorted(rs) && k + n <= |rs| && n <= 1
    requires (forall i :: 0 <= i < k ==> rs[i].offset < rel.offset)
    requires if n == 1 then rs[k].offset == rel.offset else k < |rs| ==> rs[k].offset > rel.offset
    ensures Sorted(rs[..k] + [rel] + rs[k + n..])
  {
    var rs1 := rs[..k] + [rel] + rs[k + n..];
    assert forall i :: 0 <= i < |rs1| ==> rs1[i] == if i < k then rs[i] else if i == k then rel else rs[i - 1 + n];
    assert forall i :: k + n <= i < |rs| ==> rs[i].offset > rel.offset;
  }

  lemma Replaced(a: seq<Reloc>, mid: seq<Reloc>, b: seq<Reloc>, rel: Reloc, o: nat)
    requires mid == [] || (|mid| == 1 && mid[0].offset == rel.offset)
    requires forall i :: 0 <= i < |a| ==> a[i].offset != rel.offset
    ensures At(a + [rel] + b, o) == if o == rel.offset then Some(rel) else At(a + mid + b, o)
  {
    AtConcat(a + [rel], b, o);
    AtConcat(a, [rel], o);
    AtConcat(a + mid, b, o);
    AtConcat(a, mid, o);
    AtAbsent(a, rel.offset);
    assert [rel][1..] == [];
    if mid != [] {
      assert mid[1..] == [];
    }
  }

  lemma TakenOut(rs: seq<Reloc>, k: nat)
    requires Sorted(rs) && k < |rs|
    ensures var rs1 := rs[..k] + rs[k + 1..];
      Sorted(rs1) && forall o :: At(rs1, o) == if o == rs[k].offset then None else At(rs, o)
  {
    var a, b := rs[..k], rs[k + 1..];
    assert rs == a + ([rs[k]] + b);
    forall o
      ensures At(a + b, o) == if o == rs[k].offset then None else At(rs, o)
    {
      AtConcat(a, b, o);
      AtConcat(a, [rs[k]] + b, o);
      AtConcat([rs[k]], b, o);
      AtAbsent(a, rs[k].offset);
      AtAbsent(b, rs[k].offset);
      assert [rs[k]][1..] == [];
    }
  }

  // ----- steps of the emission -----

  // The text so far is the image of the first pos bytes.
  ghost predicate Upto(text: seq<Datum>, rs: seq<Reloc>, data: seq<Byte>, pos: nat) {
    |Image(text)| == pos && forall p :: 0 <= p < pos ==> Image(text)[p] == CellAt(rs, data, p)
  }

  lemma NothingEmitted(rs: seq<Reloc>, data: seq<Byte>)
    ensures Upto([], rs, data, 0)
  {
  }

  lemma WholeImage(text: seq<Datum>, rs: seq<Reloc>, data: seq<Byte>, n: nat)
    requires Upto(text, rs, data, n)
    ensures |Image(text)| == n && forall p :: 0 <= p < n ==> Image(text)[p] == CellAt(rs, data, p)
  {
  }

  lemma ImageMore(text: seq<Datum>, d: Datum)
    ensures Image(text + [d]) == Image(text) + Cells(d)
  {
    assert (text + [d])[..|text|] == text;
  }

  lemma {:induction false} ImageConcat(a: seq<Datum>, b: seq<Datum>)
    ensures Image(a + b) == Image(a) + Image(b)
    decreases |b|
  {
    hide Image, Cells;
    NoImage();
    if b == [] {
      assert a + b == a && Image(a) + [] == Image(a);
    } else {
      var n := |b| - 1;
      ImageConcat(a, b[..n]);
      assert a + b == (a + b[..n]) + [b[n]];
      ImageMore(a + b[..n], b[n]);
      ImageMore(b[..n], b[n]);
      assert b == b[..n] + [b[n]];
    }
  }

  lemma {:induction false} BytesLong(data: seq<Byte>, lo: nat, hi: nat)
    requires hi <= |data|
    ensures |Image(Bytes(data, lo, hi))| == if lo <= hi then hi - lo else 0
    decreases hi
  {
    if lo < hi {
      BytesLong(data, lo, hi - 1);
      ImageMore(Bytes(data, lo, hi - 1), OneByte(data[hi - 1]));
    }
  }

  // Every label is where the emission puts it, and the position is the length of what is there.
  lemma {:induction false} LabelsStart(rs: seq<Reloc>, data: seq<Byte>, i: nat)
    requires i <= |rs| && InRange(rs, |data|)
    ensures |Image(Labels(rs, data, i))| == Behind(rs, i)
    ensures forall j :: 0 <= j < i ==> StartsAt(Image(Labels(rs, data, i)), Start(rs, j), rs[j])
  {
    hide Image, StartsAt;
    if i == 0 {
      NoImage();
    } else {
      var r := rs[i - 1];
      var a, b := Labels(rs, data, i - 1), Bytes(data, Behind(rs, i - 1), r.offset);
      LabelsStart(rs, data, i - 1);
      BytesLong(data, Behind(rs, i - 1), r.offset);
      ImageConcat(a, b);
      ImageMore(a + b, Quad(r.target, r.addend));
      assert Image(Labels(rs, data, i)) == Image(a + b) + Cells(Quad(r.target, r.addend));
      StartsNew(Image(a + b), r);
      forall j | 0 <= j < i - 1 ensures StartsAt(Image(Labels(rs, data, i)), Start(rs, j), rs[j]) {
        assert Image(Labels(rs, data, i)) == Image(a) + (Image(b) + Cells(Quad(r.target, r.addend)));
        StartsStay(Image(a), Image(b) + Cells(Quad(r.target, r.addend)), Start(rs, j), rs[j]);
      }
    }
  }

  lemma NoImage()
    ensures Image([]) == []
  {
  }

  lemma StartsStay(image: seq<Cell>, more: seq<Cell>, pos: nat, r: Reloc)
    requires StartsAt(image, pos, r)
    ensures StartsAt(image + more, pos, r)
  {
  }

  lemma StartsNew(image: seq<Cell>, r: Reloc)
    ensures StartsAt(image + Cells(Quad(r.target, r.addend)), |image|, r)
  {
  }

  lemma EmittedStarts(rs: seq<Reloc>, data: seq<Byte>, tySize: nat)
    requires InRange(rs, |data|)
    ensures forall i :: 0 <= i < |rs| ==> StartsAt(Image(Emitted(rs, data, tySize)), Start(rs, i), rs[i])
  {
    hide Image, StartsAt, Labels;
    var a := Labels(rs, data, |rs|);
    var b := Bytes(data, Behind(rs, |rs|), |data|);
    var c := if tySize > |data| then [Zeros(tySize - |data|)] else [];
    LabelsStart(rs, data, |rs|);
    assert Emitted(rs, data, tySize) == a + (b + c);
    ImageConcat(a, b + c);
    forall i | 0 <= i < |rs| ensures StartsAt(Image(Emitted(rs, data, tySize)), Start(rs, i), rs[i]) {
      StartsStay(Image(a), Image(b + c), Start(rs, i), rs[i]);
    }
  }

  // Bytes emitted where no label covers them.
  lemma {:induction false} BytesImage(text: seq<Datum>, rs: seq<Reloc>, data: seq<Byte>, i: nat, lo: nat, hi: nat)
    requires Sorted(rs) && Spaced(rs) && i <= |rs| && lo <= hi <= |data| && (i < |rs| ==> hi <= rs[i].offset)
    requires (forall j :: 0 <= j < i ==> rs[j].offset + 8 <= lo) && Upto(text, rs, data, lo)
    ensures Upto(text + Bytes(data, lo, hi), rs, data, hi)
    decreases hi
  {
    hide Upto;
    if lo < hi {
      BytesImage(text, rs, data, i, lo, hi - 1);
      NotCovered(rs, i, hi - 1);
      var t := text + Bytes(data, lo, hi - 1);
      ByteEmitted(t, rs, data, hi - 1);
      assert text + Bytes(data, lo, hi) == t + [OneByte(data[hi - 1])];
    } else {
      assert text + [] == text;
    }
  }

  lemma {:induction false} LabelsImage(rs: seq<Reloc>, data: seq<Byte>, i: nat)
    requires Sorted(rs) && Spaced(rs) && InRange(rs, |data|) && i <= |rs|
    ensures Behind(rs, i) == (if i == 0 then 0 else rs[i - 1].offset + 8) && Upto(Labels(rs, data, i), rs, data, Behind(rs, i))
  {
    hide Upto;
    if i == 0 {
      NothingEmitted(rs, data);
    } else {
      LabelsImage(rs, data, i - 1);
      LabelsBefore(rs, i - 1);
      BytesImage(Labels(rs, data, i - 1), rs, data, i - 1, Behind(rs, i - 1), rs[i - 1].offset);
      QuadEmitted(Labels(rs, data, i - 1) + Bytes(data, Behind(rs, i - 1), rs[i - 1].offset), rs, data, i - 1);
    }
  }

  lemma LabelsBefore(rs: seq<Reloc>, i: nat)
    requires Spaced(rs) && i <= |rs|
    ensures forall j :: 0 <= j < i ==> rs[j].offset + 8 <= rs[i - 1].offset + 8
  {
    forall j | 0 <= j < i - 1 ensures rs[j].offset + 8 <= rs[i - 1].offset {
      SpacedApart(rs, j, i - 1);
    }
  }

  lemma EmittedImage(rs: seq<Reloc>, data: seq<Byte>, tySize: nat)
    requires Sorted(rs) && Spaced(rs) && InRange(rs, |data|) && |data| <= tySize
    ensures var image := Image(Emitted(rs, data, tySize));
      |image| == tySize && forall p :: 0 <= p < tySize ==> image[p] == CellAt(rs, data, p)
  {
    hide Upto, Labels;
    var n := |rs|;
    LabelsImage(rs, data, n);
    LabelsBefore(rs, n);
    var t := Labels(rs, data, n) + Bytes(data, Behind(rs, n), |data|);
    BytesImage(Labels(rs, data, n), rs, data, n, Behind(rs, n), |data|);
    ZerosEmitted(t, rs, data, tySize);
    assert t + [] == t;
    WholeImage(Emitted(rs, data, tySize), rs, data, tySize);
  }

  lemma NoLabels(rs: seq<Reloc>, data: seq<Byte>)
    ensures Labels(rs, data, 0) == [] && Behind(rs, 0) == 0
  {
  }

  lemma NoBytes(data: seq<Byte>, lo: nat, text: seq<Datum>)
    ensures text + Bytes(data, lo, lo) == text
  {
  }

  lemma OneMoreByte(data: seq<Byte>, lo: nat, hi: nat, text: seq<Datum>)
    requires lo <= hi < |data|
    ensures text + Bytes(data, lo, hi + 1) == (text + Bytes(data, lo, hi)) + [OneByte(data[hi])]
  {
    assert Bytes(data, lo, hi + 1) == Bytes(data, lo, hi) + [OneByte(data[hi])];
  }

  // Label i is written at pos, behind the bytes before it.
  lemma OneMoreLabel(rs: seq<Reloc>, data: seq<Byte>, i: nat, pos: nat)
    requires i < |rs| && InRange(rs, |data|) && pos >= rs[i].offset && pos >= Behind(rs, i)
    requires pos > Behind(rs, i) ==> pos <= rs[i].offset
    ensures Behind(rs, i + 1) == pos + 8
    ensures Labels(rs, data, i + 1) == Labels(rs, data, i) + Bytes(data, Behind(rs, i), pos) + [Quad(rs[i].target, rs[i].addend)]
  {
    if pos == Behind(rs, i) {
      assert Bytes(data, pos, pos) == [] == Bytes(data, pos, rs[i].offset);
    }
  }

  lemma AllLines(rs: seq<Reloc>, data: seq<Byte>, tySize: nat, pos: nat)
    requires pos >= |data| && pos >= Behind(rs, |rs|) && (pos > Behind(rs, |rs|) ==> pos <= |data|)
    ensures var text := Labels(rs, data, |rs|) + Bytes(data, Behind(rs, |rs|), pos);
      Emitted(rs, data, tySize) == if tySize > |data| then text + [Zeros(tySize - |data|)] else text
  {
    if pos == Behind(rs, |rs|) {
      assert Bytes(data, pos, pos) == [] == Bytes(data, pos, |data|);
    }
    var text := Labels(rs, data, |rs|) + Bytes(data, Behind(rs, |rs|), |data|);
    assert text + [] == text;
  }

  // What the lines mean.
  lemma EmittedMeans(rs: seq<Reloc>, data: seq<Byte>, tySize: nat)
    requires Sorted(rs) && InRange(rs, |data|) && |data| <= tySize
    ensures var image := Image(Emitted(rs, data, tySize));
      && (Spaced(rs) ==> |image| == tySize && forall p :: 0 <= p < tySize ==> image[p] == CellAt(rs, data, p))
      && (Placed(image, rs) <==> Spaced(rs))
      && (forall i :: 0 <= i < |rs| ==> StartsAt(image, Start(rs, i), rs[i]))
  {
    hide Image, CellAt, Placed, StartsAt, Emitted;
    EmittedStarts(rs, data, tySize);
    if Spaced(rs) {
      EmittedImage(rs, data, tySize);
      AllPlaced(Image(Emitted(rs, data, tySize)), rs, data);
    } else {
      NotPlaced(Image(Emitted(rs, data, tySize)), rs);
    }
  }

  lemma NotCovered(rs: seq<Reloc>, i: nat, p: nat)
    requires Sorted(rs) && Spaced(rs) && i <= |rs| && (forall j :: 0 <= j < i ==> rs[j].offset + 8 <= p)
    requires i < |rs| ==> p < rs[i].offset
    ensures Covering(rs, p) == None
  {
    forall j | 0 <= j < |rs|
      ensures !(rs[j].offset <= p < rs[j].offset + 8)
    {
      if j > i {
        assert rs[i].offset < rs[j].offset;
      }
    }
    CoveringNone(rs, p);
  }

  lemma ByteEmitted(text: seq<Datum>, rs: seq<Reloc>, data: seq<Byte>, pos: nat)
    requires Upto(text, rs, data, pos) && pos < |data| && Covering(rs, pos) == None
    ensures Upto(text + [OneByte(data[pos])], rs, data, pos + 1)
  {
    ImageMore(text, OneByte(data[pos]));
  }

  lemma QuadEmitted(text: seq<Datum>, rs: seq<Reloc>, data: seq<Byte>, i: nat)
    requires Sorted(rs) && Spaced(rs) && i < |rs| && Upto(text, rs, data, rs[i].offset)
    ensures Upto(text + [Quad(rs[i].target, rs[i].addend)], rs, data, rs[i].offset + 8)
  {
    hide Image, CellAt;
    var d, pos := Quad(rs[i].target, rs[i].addend), rs[i].offset;
    ImageMore(text, d);
    forall k | 0 <= k < 8
      ensures CellAt(rs, data, pos + k) == Part(rs[i].target, rs[i].addend, k)
    {
      CoveringMember(rs, i, pos + k);
      CellCovered(rs, data, pos + k, rs[i]);
    }
    forall p | 0 <= p < pos + 8
      ensures Image(text + [d])[p] == CellAt(rs, data, p)
    {
      if p >= pos {
        assert Cells(d)[p - pos] == CellAt(rs, data, pos + (p - pos));
      }
    }
  }

  lemma CellCovered(rs: seq<Reloc>, data: seq<Byte>, p: nat, r: Reloc)
    requires Covering(rs, p) == Some(r) && p >= r.offset
    ensures CellAt(rs, data, p) == Part(r.target, r.addend, p - r.offset)
  {
  }

  lemma ZerosEmitted(text: seq<Datum>, rs: seq<Reloc>, data: seq<Byte>, tySize: nat)
    requires Sorted(rs) && Spaced(rs) && InRange(rs, |data|) && Upto(text, rs, data, |data|) && |data| <= tySize
    ensures Upto(if tySize > |data| then text + [Zeros(tySize - |data|)] else text, rs, data, tySize)
  {
    if tySize > |data| {
      ImageMore(text, Zeros(tySize - |data|));
      forall p | |data| <= p < tySize
        ensures CellAt(rs, data, p) == Val(0)
      {
        CoveringNone(rs, p);
      }
    }
  }

  lemma AllPlaced(image: seq<Cell>, rs: seq<Reloc>, data: seq<Byte>)
    requires Sorted(rs) && Spaced(rs) && InRange(rs, |image|)
    requires forall p :: 0 <= p < |image| ==> image[p] == CellAt(rs, data, p)
    ensures Placed(image, rs)
  {
    forall i, k | 0 <= i < |rs| && 0 <= k < 8
      ensures rs[i].offset + 8 <= |image| && image[rs[i].offset..][k] == Part(rs[i].target, rs[i].addend, k)
    {
      CoveringMember(rs, i, rs[i].offset + k);
    }
    forall i | 0 <= i < |rs|
      ensures PlacedAt(image, rs[i])
    {
    }
  }

  // ----- any mix of writes -----

  datatype Write = Address(offset: nat, target: string, addend: int) | Scalar(offset: nat, size: nat, val: int)

  // The relocation at offset o after some writes: that of the last write there.
  function LastWrite(ws: seq<Write>, o: nat): Option<Reloc> {
    if ws == [] then None
    else
      var w := ws[|ws| - 1];
      if w.offset != o then LastWrite(ws[..|ws| - 1], o)
      else if w.Address? then Some(Reloc(o, w.target, w.addend)) else None
  }

  // The byte at position p after some writes: that of the last scalar that covers it.
  function LastByte(ws: seq<Write>, p: nat): Byte {
    if ws == [] then 0
    else
      var w := ws[|ws| - 1];
      if w.Scalar? && w.offset <= p < w.offset + ScalarBytes(w.size) then ByteOf(w.val, p - w.offset)
      else LastByte(ws[..|ws| - 1], p)
  }

  // How far the scalars reach.
  function Extent(ws: seq<Write>): nat {
    if ws == [] then 0
    else
      var n, w := Extent(ws[..|ws| - 1]), ws[|ws| - 1];
      if w.Scalar? && w.offset + w.size > n then w.offset + w.size else n
  }

  // From zeros as many as the type has bytes, the last write to an offset decides, for labels and for
  // bytes, and every other offset is as if it had not happened.
  method Initialise(tySize: nat, ws: seq<Write>) returns (g: Global)
    requires forall i :: 0 <= i < |ws| ==> ws[i].Scalar? ==> ScalarBytes(ws[i].size) <= ws[i].size
    ensures fresh(g) && g.Valid() && forall o :: At(g.relocs, o) == LastWrite(ws, o)
    ensures |g.data| == Max(tySize, Extent(ws)) && forall p :: 0 <= p < |g.data| ==> g.data[p] == LastByte(ws, p)
  {
    g := new Global();
    g.EnsureInitSize(0, tySize);
    for i := 0 to |ws|
      invariant fresh(g) && g.Valid() && forall o :: At(g.relocs, o) == LastWrite(ws[..i], o)
      invariant |g.data| == Max(tySize, Extent(ws[..i])) && forall p :: 0 <= p < |g.data| ==> g.data[p] == LastByte(ws[..i], p)
    {
      hide ByteOf;
      assert ws[..i + 1][..i] == ws[..i];
      ghost var before := g.data;
      NothingBeyond(ws[..i]);
      match ws[i]
      case Address(offset, target, addend) => g.AppendReloc(offset, target, addend);
      case Scalar(offset, size, val) => g.WriteScalarBytes(offset, size, val);
    }
    assert ws[..|ws|] == ws;
  }

  // Bytes that no scalar reaches are zero.
  lemma {:induction false} NothingBeyond(ws: seq<Write>)
    requires forall i :: 0 <= i < |ws| ==> ws[i].Scalar? ==> ScalarBytes(ws[i].size) <= ws[i].size
    ensures forall p :: p >= Extent(ws) ==> LastByte(ws, p) == 0
  {
    if ws != [] {
      NothingBeyond(ws[..|ws| - 1]);
    }
  }
}
