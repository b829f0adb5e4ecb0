/** From the writes of an initializer to the emitted image: exactly when every byte is that of the last
    write to it. */
module GlobalImage {
  import opened Words
  import opened Options
  import opened GlobalData

  // How many bytes a write writes: a label takes eight.
  function Width(w: Write): nat { if w.Address? then 8 else ScalarBytes(w.size) }

  predicate Covers(w: Write, p: nat) { w.offset <= p < w.offset + Width(w) }

  // What a write puts at a position that it covers.
  function CellOf(w: Write, p: nat): Cell
    requires Covers(w, p)
  {
    if w.Address? then Part(w.target, w.addend, p - w.offset) else Val(ByteOf(w.val, p - w.offset))
  }

  // What the last write to a byte left there.
  function LastCell(ws: seq<Write>, p: nat): Cell {
    if ws == [] then Val(0)
    else
      var w := ws[|ws| - 1];
      if Covers(w, p) then CellOf(w, p) else LastCell(ws[..|ws| - 1], p)
  }

  // Every write lies inside the type.
  predicate Inside(ws: seq<Write>, tySize: nat) {
    forall i :: 0 <= i < |ws| ==>
      ws[i].offset + Width(ws[i]) <= tySize && (ws[i].Scalar? ==> Width(ws[i]) <= ws[i].size && ws[i].offset + ws[i].size <= tySize)
  }

  predicate Overlap(v: Write, w: Write) { v.offset < w.offset + Width(w) && w.offset < v.offset + Width(v) }

  // No later write touches a byte of write i.
  ghost predicate Untouched(ws: seq<Write>, i: nat)
    requires i < |ws|
  {
    forall j :: i < j < |ws| ==> !Overlap(ws[i], ws[j])
  }

  // A later write starts where write i does, and later writes cover all its bytes.
  ghost predicate Overwritten(ws: seq<Write>, i: nat)
    requires i < |ws|
  {
    && (exists j :: i < j < |ws| && ws[j].offset == ws[i].offset)
    && (forall p :: Covers(ws[i], p) ==> exists j :: i < j < |ws| && Covers(ws[j], p))
  }

  // Every label is left alone afterwards, or overwritten from its start and altogether.
  ghost predicate Clean(ws: seq<Write>) {
    forall i :: 0 <= i < |ws| && ws[i].Address? ==> Untouched(ws, i) || Overwritten(ws, i)
  }

  // ----- the last write, as an index -----

  // Write i is the last to cover p.
  ghost predicate LastCover(ws: seq<Write>, i: nat, p: nat) {
    i < |ws| && Covers(ws[i], p) && forall j :: i < j < |ws| ==> !Covers(ws[j], p)
  }

  // Write i is the last at offset o.
  ghost predicate LastAt(ws: seq<Write>, i: nat, o: nat) {
    i < |ws| && ws[i].offset == o && forall j :: i < j < |ws| ==> ws[j].offset != o
  }

  lemma {:induction false} CellFound(ws: seq<Write>, p: nat)
    ensures (exists i: nat :: LastCover(ws, i, p)) || (forall i :: 0 <= i < |ws| ==> !Covers(ws[i], p))
    ensures forall i: nat :: LastCover(ws, i, p) ==> LastCell(ws, p) == CellOf(ws[i], p)
    ensures (forall i :: 0 <= i < |ws| ==> !Covers(ws[i], p)) ==> LastCell(ws, p) == Val(0)
    decreases |ws|
  {
    if ws != [] {
      var n := |ws| - 1;
      var front := ws[..n];
      if Covers(ws[n], p) {
        assert LastCover(ws, n, p);
      } else {
        CellFound(front, p);
        if i: nat :| LastCover(front, i, p) {
          assert LastCover(ws, i, p);
        } else {
          assert forall i :: 0 <= i < n ==> ws[i] == front[i];
        }
        forall i: nat | LastCover(ws, i, p) ensures LastCover(front, i, p) {
        }
      }
    }
  }

  lemma {:induction false} ByteFound(ws: seq<Write>, p: nat)
    ensures forall i: nat :: LastCover(ws, i, p) && ws[i].Scalar? ==> LastByte(ws, p) == ByteOf(ws[i].val, p - ws[i].offset)
    ensures (forall i :: 0 <= i < |ws| ==> !Covers(ws[i], p)) ==> LastByte(ws, p) == 0
    decreases |ws|
  {
    if ws != [] {
      var n := |ws| - 1;
      if !Covers(ws[n], p) {
        ByteFound(ws[..n], p);
        forall i: nat | LastCover(ws, i, p) ensures LastCover(ws[..n], i, p) {
        }
      }
    }
  }

  lemma {:induction false} WriteFound(ws: seq<Write>, o: nat)
    ensures (exists i: nat :: LastAt(ws, i, o)) || (forall i :: 0 <= i < |ws| ==> ws[i].offset != o)
    ensures forall i: nat :: LastAt(ws, i, o) ==>
      LastWrite(ws, o) == (if ws[i].Address? then Some(Reloc(o, ws[i].target, ws[i].addend)) else None)
    ensures (forall i :: 0 <= i < |ws| ==> ws[i].offset != o) ==> LastWrite(ws, o) == None
    decreases |ws|
  {
    if ws != [] {
      var n := |ws| - 1;
      var front := ws[..n];
      if ws[n].offset == o {
        assert LastAt(ws, n, o);
      } else {
        WriteFound(front, o);
        if i: nat :| LastAt(front, i, o) {
          assert LastAt(ws, i, o);
        } else {
          assert forall i :: 0 <= i < n ==> ws[i] == front[i];
        }
        forall i: nat | LastAt(ws, i, o) ensures LastAt(front, i, o) {
        }
      }
    }
  }

  // ----- labels that are left -----

  // The list holds the labels of the last writes.
  ghost predicate Labelled(ws: seq<Write>, rs: seq<Reloc>) {
    Sorted(rs) && forall o :: At(rs, o) == LastWrite(ws, o)
  }

  // A label in the list comes from the last write at its offset.
  lemma LabelFrom(ws: seq<Write>, rs: seq<Reloc>, k: nat) returns (i: nat)
    requires Labelled(ws, rs) && k < |rs|
    ensures LastAt(ws, i, rs[k].offset) && ws[i] == Address(rs[k].offset, rs[k].target, rs[k].addend)
  {
    AtMember(rs, k);
    WriteFound(ws, rs[k].offset);
    i :| LastAt(ws, i, rs[k].offset);
  }

  lemma {:induction false} AtFound(rs: seq<Reloc>, o: nat)
    requires At(rs, o).Some?
    ensures exists k :: 0 <= k < |rs| && rs[k] == At(rs, o).value && rs[k].offset == o
  {
    if rs[0].offset != o {
      AtFound(rs[1..], o);
      var k :| 0 <= k < |rs[1..]| && rs[1..][k] == At(rs, o).value && rs[1..][k].offset == o;
      assert rs[k + 1] == rs[1..][k];
    }
  }

  // The last write at an offset, if it is a label, is in the list.
  lemma LabelOf(ws: seq<Write>, rs: seq<Reloc>, i: nat) returns (k: nat)
    requires Labelled(ws, rs) && i < |ws| && LastAt(ws, i, ws[i].offset) && ws[i].Address?
    ensures k < |rs| && rs[k] == Reloc(ws[i].offset, ws[i].target, ws[i].addend)
  {
    WriteFound(ws, ws[i].offset);
    AtFound(rs, ws[i].offset);
    k :| 0 <= k < |rs| && rs[k] == At(rs, ws[i].offset).value && rs[k].offset == ws[i].offset;
  }

  // A label that no later write at its offset replaced cannot be touched in a clean list.
  lemma StandsAlone(ws: seq<Write>, i: nat)
    requires Clean(ws) && i < |ws| && ws[i].Address? && LastAt(ws, i, ws[i].offset)
    ensures Untouched(ws, i)
  {
  }

  lemma CleanSpaced(ws: seq<Write>, rs: seq<Reloc>)
    requires Labelled(ws, rs) && Clean(ws)
    ensures Spaced(rs)
  {
    forall k | 0 < k < |rs| ensures rs[k - 1].offset + 8 <= rs[k].offset {
      var a := LabelFrom(ws, rs, k - 1);
      var b := LabelFrom(ws, rs, k);
      StandsAlone(ws, a);
      StandsAlone(ws, b);
      assert a != b && (a < b ==> !Overlap(ws[a], ws[b])) && (b < a ==> !Overlap(ws[b], ws[a]));
    }
  }

  // ----- from clean writes to the image -----

  lemma {:induction false} CoveringIs(rs: seq<Reloc>, p: nat)
    ensures Covering(rs, p).Some? ==> var r := Covering(rs, p).value;
      r.offset <= p < r.offset + 8 && exists k :: 0 <= k < |rs| && rs[k] == r
  {
    if rs != [] && !(rs[0].offset <= p < rs[0].offset + 8) {
      CoveringIs(rs[1..], p);
      if Covering(rs, p).Some? {
        var k :| 0 <= k < |rs[1..]| && rs[1..][k] == Covering(rs, p).value;
        assert rs[k + 1] == rs[1..][k];
      }
    }
  }

  // What covers a byte in the list is the last write to it.
  lemma CoveredLast(ws: seq<Write>, rs: seq<Reloc>, p: nat) returns (i: nat)
    requires Labelled(ws, rs) && Clean(ws) && Covering(rs, p).Some?
    ensures var r := Covering(rs, p).value; LastCover(ws, i, p) && ws[i] == Address(r.offset, r.target, r.addend) && r.offset <= p
  {
    CoveringIs(rs, p);
    var k :| 0 <= k < |rs| && rs[k] == Covering(rs, p).value;
    i := LabelFrom(ws, rs, k);
    StandsAlone(ws, i);
    forall j | i < j < |ws| ensures !Covers(ws[j], p) {
      assert !Overlap(ws[i], ws[j]);
    }
  }

  lemma CleanCell(ws: seq<Write>, rs: seq<Reloc>, data: seq<Byte>, p: nat)
    requires Labelled(ws, rs) && Clean(ws) && p < |data| && data[p] == LastByte(ws, p)
    ensures CellAt(rs, data, p) == LastCell(ws, p)
  {
    hide LastByte, LastCell, ByteOf;
    CellFound(ws, p);
    if Covering(rs, p).Some? {
      var i := CoveredLast(ws, rs, p);
    } else if c: nat :| LastCover(ws, c, p) {
      ByteFound(ws, p);
      if ws[c].Address? {
        assert Untouched(ws, c);
        forall j | c < j < |ws| ensures ws[j].offset != ws[c].offset {
          assert !Overlap(ws[c], ws[j]);
        }
        var k := LabelOf(ws, rs, c);
        CleanSpaced(ws, rs);
        CoveringMember(rs, k, p);
      }
    } else {
      ByteFound(ws, p);
    }
  }

  // ----- from the image to clean writes -----

  // The emitted image is that of the last write to each byte.
  ghost predicate Exact(image: seq<Cell>, ws: seq<Write>, tySize: nat) {
    |image| == tySize && forall p :: 0 <= p < tySize ==> image[p] == LastCell(ws, p)
  }

  // Where a label starts in such an image, the list has a label.
  lemma StartLabelled(ws: seq<Write>, rs: seq<Reloc>, q: nat, r: Reloc)
    requires Labelled(ws, rs) && LastCell(ws, q) == Part(r.target, r.addend, 0)
    ensures exists k :: 0 <= k < |rs| && rs[k].offset == q
  {
    CellFound(ws, q);
    var i: nat :| LastCover(ws, i, q);
    assert ws[i].Address? && ws[i].offset == q;
    forall j | i < j < |ws| ensures ws[j].offset != q {
      assert !Covers(ws[j], q);
    }
    var k := LabelOf(ws, rs, i);
  }

  // If the labels overlap, one of them is emitted where none belongs.
  lemma {:induction false} Displaced(rs: seq<Reloc>, i: nat) returns (k: nat)
    requires Sorted(rs) && i < |rs| && Start(rs, i) > rs[i].offset
    ensures i <= k < |rs| && Start(rs, k) > rs[k].offset && forall m :: 0 <= m < |rs| ==> rs[m].offset != Start(rs, k)
    decreases |rs| - i
  {
    if i + 1 < |rs| && Start(rs, i + 1) > rs[i + 1].offset {
      k := Displaced(rs, i + 1);
    } else {
      k := i;
      forall m | 0 <= m < |rs| ensures rs[m].offset != Start(rs, k) {
        assert m <= i ==> rs[m].offset <= rs[i].offset;
        assert m > i ==> rs[i + 1].offset <= rs[m].offset && Start(rs, i + 1) == rs[i + 1].offset;
      }
    }
  }

  lemma {:induction false} FirstOverlap(rs: seq<Reloc>, i: nat)
    requires Sorted(rs) && 0 < i < |rs| && rs[i - 1].offset + 8 > rs[i].offset
    ensures Start(rs, i) > rs[i].offset
  {
    assert Start(rs, i - 1) >= rs[i - 1].offset;
  }

  lemma ExactSpaced(ws: seq<Write>, rs: seq<Reloc>, image: seq<Cell>, tySize: nat)
    requires Labelled(ws, rs) && Exact(image, ws, tySize)
    requires forall i :: 0 <= i < |rs| ==> StartsAt(image, Start(rs, i), rs[i])
    ensures Spaced(rs)
  {
    hide Start, LastCell, LastWrite;
    if !Spaced(rs) {
      var i :| 0 < i < |rs| && rs[i - 1].offset + 8 > rs[i].offset;
      FirstOverlap(rs, i);
      var k := Displaced(rs, i);
      assert StartsAt(image, Start(rs, k), rs[k]);
      StartLabelled(ws, rs, Start(rs, k), rs[k]);
      assert false;
    }
  }

  lemma LastOf(ws: seq<Write>, i: nat, o: nat) returns (j: nat)
    requires i < |ws| && ws[i].offset == o
    ensures i <= j && LastAt(ws, j, o)
  {
    WriteFound(ws, o);
    j :| LastAt(ws, j, o);
  }

  // A label that is neither left alone nor overwritten shows in the image.
  lemma ExactClean(ws: seq<Write>, rs: seq<Reloc>, data: seq<Byte>, tySize: nat)
    requires Labelled(ws, rs) && Spaced(rs) && Inside(ws, tySize)
    requires forall p :: 0 <= p < tySize ==> CellAt(rs, data, p) == LastCell(ws, p)
    ensures Clean(ws)
  {
    hide CellAt, LastCell, LastWrite;
    forall i | 0 <= i < |ws| && ws[i].Address? ensures Untouched(ws, i) || Overwritten(ws, i) {
      var o := ws[i].offset;
      var j := LastOf(ws, i, o);
      if j == i {
        ReplacedShows(ws, rs, data, tySize, i);
      } else {
        forall p | Covers(ws[i], p) ensures exists m :: i < m < |ws| && Covers(ws[m], p) {
          RemnantShows(ws, rs, data, tySize, i, j, p);
        }
      }
    }
  }

  // The label of write i is in the list: no later write covers a byte of it.
  lemma LabelLast(ws: seq<Write>, rs: seq<Reloc>, data: seq<Byte>, tySize: nat, i: nat, p: nat)
    requires Labelled(ws, rs) && Spaced(rs) && Inside(ws, tySize) && i < |ws| && ws[i].Address? && LastAt(ws, i, ws[i].offset)
    requires Covers(ws[i], p) && forall p :: 0 <= p < tySize ==> CellAt(rs, data, p) == LastCell(ws, p)
    ensures LastCover(ws, i, p)
  {
    hide LastCell, LastWrite;
    var k := LabelOf(ws, rs, i);
    CoveringMember(rs, k, p);
    CellFound(ws, p);
    var c: nat :| LastCover(ws, c, p);
    assert CellOf(ws[c], p) == Part(ws[i].target, ws[i].addend, p - ws[i].offset);
  }

  lemma ReplacedShows(ws: seq<Write>, rs: seq<Reloc>, data: seq<Byte>, tySize: nat, i: nat)
    requires Labelled(ws, rs) && Spaced(rs) && Inside(ws, tySize) && i < |ws| && ws[i].Address? && LastAt(ws, i, ws[i].offset)
    requires forall p :: 0 <= p < tySize ==> CellAt(rs, data, p) == LastCell(ws, p)
    ensures Untouched(ws, i)
  {
    hide CellAt, LastCell, LastWrite;
    forall p | Covers(ws[i], p) ensures LastCover(ws, i, p) {
      LabelLast(ws, rs, data, tySize, i, p);
    }
    forall j | i < j < |ws| ensures !Overlap(ws[i], ws[j]) {
      var p := Max(ws[i].offset, ws[j].offset);
      assert Overlap(ws[i], ws[j]) ==> Covers(ws[i], p);
    }
  }

  // The label of write i is not in the list: no byte of it may be left.
  lemma RemnantShows(ws: seq<Write>, rs: seq<Reloc>, data: seq<Byte>, tySize: nat, i: nat, j: nat, p: nat)
    requires Labelled(ws, rs) && Spaced(rs) && Inside(ws, tySize) && i < j < |ws| && ws[i].Address? && LastAt(ws, j, ws[i].offset)
    requires Covers(ws[i], p) && forall p :: 0 <= p < tySize ==> CellAt(rs, data, p) == LastCell(ws, p)
    ensures exists m :: i < m < |ws| && Covers(ws[m], p)
  {
    hide LastCell, LastWrite;
    if !exists m :: i < m < |ws| && Covers(ws[m], p) {
      assert LastCover(ws, i, p);
      CellFound(ws, p);
      CoveringIs(rs, p);
      assert CellAt(rs, data, p) == Part(ws[i].target, ws[i].addend, p - ws[i].offset);
      var r := Covering(rs, p).value;
      var k :| 0 <= k < |rs| && rs[k] == r;
      var c := LabelFrom(ws, rs, k);
      assert false;
    }
  }

  // ----- the whole way -----

  lemma AllInside(ws: seq<Write>, rs: seq<Reloc>, tySize: nat)
    requires Labelled(ws, rs) && Inside(ws, tySize)
    ensures InRange(rs, tySize)
  {
    hide LastWrite;
    forall k | 0 <= k < |rs| ensures rs[k].offset + 8 <= tySize {
      var i := LabelFrom(ws, rs, k);
    }
  }

  lemma {:induction false} ExtentInside(ws: seq<Write>, tySize: nat)
    requires Inside(ws, tySize)
    ensures Extent(ws) <= tySize
    decreases |ws|
  {
    if ws != [] {
      ExtentInside(ws[..|ws| - 1], tySize);
    }
  }

  // The lines emitted for an aggregate after any writes inside its type are the image of the last
  // write to each byte exactly if the writes are clean.
  method EmitInitialised(tySize: nat, ws: seq<Write>) returns (text: seq<Datum>)
    requires Inside(ws, tySize)
    ensures Exact(Image(text), ws, tySize) <==> Clean(ws)
  {
    hide Image, CellAt, LastCell, LastWrite, LastByte, Start, Clean;
    ExtentInside(ws, tySize);
    var g := Initialise(tySize, ws);
    AllInside(ws, g.relocs, tySize);
    text := g.Emit(tySize);
    if Clean(ws) {
      CleanSpaced(ws, g.relocs);
      forall p | 0 <= p < tySize ensures Image(text)[p] == LastCell(ws, p) {
        CleanCell(ws, g.relocs, g.data, p);
      }
    } else if Exact(Image(text), ws, tySize) {
      ExactSpaced(ws, g.relocs, Image(text), tySize);
      ExactClean(ws, g.relocs, g.data, tySize);
      assert false;
    }
  }

  // A label, and then a scalar inside it: the label stays, and what is emitted for the bytes of the
  // scalar is the label's.
  lemma ScalarHidden(val: int, rs: seq<Reloc>, data: seq<Byte>)
    requires Labelled([Address(0, "x", 0), Scalar(4, 4, val)], rs) && |data| == 8
    ensures var ws := [Address(0, "x", 0), Scalar(4, 4, val)];
      Inside(ws, 8) && !Clean(ws) && LastCell(ws, 4) == Val(val % 256)
    ensures var image := Image(Emitted(rs, data, 8));
      |image| == 8 && forall p :: 0 <= p < 8 ==> image[p] == Part("x", 0, p)
  {
    hide Image, Emitted;
    var ws := [Address(0, "x", 0), Scalar(4, 4, val)];
    assert Overlap(ws[0], ws[1]) && ws[1].offset != ws[0].offset;
    assert !Untouched(ws, 0) && !Overwritten(ws, 0);
    OnlyLabel(ws, rs);
    EmittedMeans(rs, data, 8);
  }

  // The list of labels then has one entry.
  lemma OnlyLabel(ws: seq<Write>, rs: seq<Reloc>)
    requires |ws| == 2 && ws[0] == Address(0, "x", 0) && ws[1].Scalar? && ws[1].offset == 4 && Labelled(ws, rs)
    ensures rs == [Reloc(0, "x", 0)]
  {
    hide LastWrite, At;
    assert LastAt(ws, 0, 0);
    var k := LabelOf(ws, rs, 0);
    forall i | 0 <= i < |rs| ensures rs[i] == Reloc(0, "x", 0) {
      var j := LabelFrom(ws, rs, i);
    }
    FirstTwo(rs);
  }

  lemma FirstTwo(rs: seq<Reloc>)
    requires Sorted(rs)
    ensures |rs| > 1 ==> rs[0].offset < rs[1].offset
  {
  }
}
