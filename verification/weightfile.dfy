/** `write_snnue`: the binary weight file. Twelve header bytes (the magic
    "SNN1" and four little-endian u16 fields: input size, hidden size,
    version 1, flags 0), then every parameter as a 4-byte little-endian
    float: `w1` row by row, `b1`, `w2`, `b2`. After writing, the script
    compares the file length with `12 + (in * hid + hid + hid + 1) * 4`.
    The float encoding (`struct.pack("<f")`) is a parameter `enc`. */
module WeightFile {
  import opened Wrappers
  import opened Network
  import Trainer
  import Dataset

  type Byte = b: int | 0 <= b < 256

  /** The four bytes of one packed float. */
  type Cell = s: seq<Byte> | |s| == 4 witness [0, 0, 0, 0]

  /** `b"SNN1"`. */
  const Magic: seq<Byte> := [83, 78, 78, 49]
  const Version: int := 1
  const Flags: int := 0
  const HeaderSize: nat := 12

  /** `struct.pack("<H", x)`, which raises for values outside [0, 65535]. */
  function U16(x: int): (r: Option<seq<Byte>>)
    ensures r.Some? <==> 0 <= x < 65536
    ensures r.Some? ==> |r.value| == 2 && (r.value[0] as int) + 256 * (r.value[1] as int) == x
  {
    if 0 <= x < 65536 then Some([x % 256, x / 256]) else None
  }

  /** `struct.unpack("<H", b)`. */
  function U16Value(b: seq<Byte>): int
    requires |b| == 2
  {
    (b[0] as int) + 256 * (b[1] as int)
  }

  lemma U16RoundTrip(b: seq<Byte>)
    requires |b| == 2
    ensures U16(U16Value(b)) == Some(b)
  {
    var x := U16Value(b);
    assert x / 256 == b[1] as int && x % 256 == b[0] as int;
    assert [x % 256, x / 256] == b;
  }

  /** The rows of `w1` one after another. */
  function Flatten(rows: seq<seq<real>>): seq<real> {
    if |rows| == 0 then [] else rows[0] + Flatten(rows[1..])
  }

  /** Every value the file holds, in file order. */
  function Floats(p: Params): seq<real> {
    Flatten(p.w1) + p.b1 + p.w2 + [p.b2]
  }

  /** Cells one after another. */
  function Join(cells: seq<Cell>): (b: seq<Byte>)
    ensures |b| == 4 * |cells|
  {
    if |cells| == 0 then [] else cells[0] + Join(cells[1..])
  }

  /** The packed floats of `xs`. */
  function Pack(xs: seq<real>, enc: real -> Cell): (cells: seq<Cell>)
    ensures |cells| == |xs|
  {
    seq(|xs|, k requires 0 <= k < |xs| => enc(xs[k]))
  }

  datatype WriteError =
    | HeaderOutOfRange
    | SizeMismatch(written: seq<Byte>)
    | ShapeMismatch

  /** The header after the magic: `struct.pack("<HHHH", ...)`. */
  function HeaderFields(inputSize: int, hiddenSize: int): Option<seq<Byte>> {
    if 0 <= inputSize < 65536 && 0 <= hiddenSize < 65536 then
      Some(U16(inputSize).value + U16(hiddenSize).value + U16(Version).value + U16(Flags).value)
    else None
  }

  /** The expected length `12 + float_count * 4`. */
  function ExpectedLength(inputSize: int, hiddenSize: int): int {
    HeaderSize + (inputSize * hiddenSize + hiddenSize + hiddenSize + 1) * 4
  }

  /** `write_snnue` as written: the bytes of the file, or the error it raises.
      A size mismatch leaves the file on disk, so the error carries what was
      written. Only the total length is compared with the declared sizes. */
  function WriteSnnue(inputSize: int, hiddenSize: int, p: Params, enc: real -> Cell): (r: Result<seq<Byte>, WriteError>)
    ensures r.Ok? ==> |r.value| == ExpectedLength(inputSize, hiddenSize)
    ensures r.Ok? || r.error.HeaderOutOfRange? || r.error.SizeMismatch?
  {
    match HeaderFields(inputSize, hiddenSize)
    case None => Err(HeaderOutOfRange)
    case Some(header) =>
      var bytes := Magic + header + Join(Pack(Floats(p), enc));
      if |bytes| != ExpectedLength(inputSize, hiddenSize) then Err(SizeMismatch(bytes)) else Ok(bytes)
  }

  // ---------------------------------------------------------------------
  // Reading the file back
  // ---------------------------------------------------------------------

  /** The four header fields and the packed floats. */
  datatype Image = Image(inputSize: int, hiddenSize: int, version: int, flags: int, cells: seq<Cell>)

  datatype ReadError = TooShort | BadMagic | Ragged

  /** Consecutive 4-byte cells of `b`. */
  function Cells(b: seq<Byte>): (cells: seq<Cell>)
    requires |b| % 4 == 0
    ensures |cells| == |b| / 4
  {
    if |b| == 0 then [] else [b[..4]] + Cells(b[4..])
  }

  /** The inverse of the writer: the header fields and the cells. */
  function ReadSnnue(b: seq<Byte>): Result<Image, ReadError> {
    if |b| < HeaderSize then Err(TooShort)
    else if b[..4] != Magic then Err(BadMagic)
    else if (|b| - HeaderSize) % 4 != 0 then Err(Ragged)
    else Ok(Image(U16Value(b[4..6]), U16Value(b[6..8]), U16Value(b[8..10]), U16Value(b[10..12]), Cells(b[HeaderSize..])))
  }

  lemma {:induction false} CellsJoin(cells: seq<Cell>)
    ensures Cells(Join(cells)) == cells
  {
    if |cells| > 0 {
      var b := Join(cells);
      assert b[..4] == cells[0];
      assert b[4..] == Join(cells[1..]);
      CellsJoin(cells[1..]);
    }
  }

  lemma {:induction false} JoinCells(b: seq<Byte>)
    requires |b| % 4 == 0
    ensures Join(Cells(b)) == b
  {
    if |b| > 0 {
      JoinCells(b[4..]);
      var cells := Cells(b);
      assert cells[0] == b[..4];
      assert cells[1..] == Cells(b[4..]);
      assert b == b[..4] + b[4..];
    }
  }

  /** Reading a written file gives back the header the writer was given and
      the packed parameters in file order. */
  lemma ReadWritten(inputSize: int, hiddenSize: int, p: Params, enc: real -> Cell)
    requires WriteSnnue(inputSize, hiddenSize, p, enc).Ok?
    ensures ReadSnnue(WriteSnnue(inputSize, hiddenSize, p, enc).value)
              == Ok(Image(inputSize, hiddenSize, Version, Flags, Pack(Floats(p), enc)))
  {
    var header := HeaderFields(inputSize, hiddenSize).value;
    var body := Join(Pack(Floats(p), enc));
    var b := Magic + header + body;
    assert b[..4] == Magic;
    assert b[4..6] == U16(inputSize).value;
    assert b[6..8] == U16(hiddenSize).value;
    assert b[8..10] == U16(Version).value;
    assert b[10..12] == U16(Flags).value;
    assert b[HeaderSize..] == body;
    CellsJoin(Pack(Floats(p), enc));
  }

  /** The header and cells a file was read into.
      Writing them out again gives back the same bytes. */
  function Serialize(img: Image): seq<Byte>
    requires 0 <= img.inputSize < 65536 && 0 <= img.hiddenSize < 65536
    requires 0 <= img.version < 65536 && 0 <= img.flags < 65536
  {
    Magic + U16(img.inputSize).value + U16(img.hiddenSize).value + U16(img.version).value
      + U16(img.flags).value + Join(img.cells)
  }

  lemma SerializeRead(b: seq<Byte>)
    requires ReadSnnue(b).Ok?
    ensures var img := ReadSnnue(b).value;
            && 0 <= img.inputSize < 65536 && 0 <= img.hiddenSize < 65536
            && 0 <= img.version < 65536 && 0 <= img.flags < 65536
            && Serialize(img) == b
  {
    var img := ReadSnnue(b).value;
    U16RoundTrip(b[4..6]);
    U16RoundTrip(b[6..8]);
    U16RoundTrip(b[8..10]);
    U16RoundTrip(b[10..12]);
    JoinCells(b[HeaderSize..]);
    assert b == b[..4] + b[4..6] + b[6..8] + b[8..10] + b[10..12] + b[HeaderSize..];
  }

  // ---------------------------------------------------------------------
  // The length check
  // ---------------------------------------------------------------------

  lemma {:induction false} FlattenLength(rows: seq<seq<real>>, width: nat)
    requires forall r :: 0 <= r < |rows| ==> |rows[r]| == width
    ensures |Flatten(rows)| == |rows| * width
  {
    if |rows| > 0 {
      FlattenLength(rows[1..], width);
      assert |rows| * width == width + (|rows| - 1) * width;
    }
  }

  /** `w1[r][c]` is the value at `r * width + c` of the flattened rows. */
  lemma {:induction false} FlattenAt(rows: seq<seq<real>>, width: nat, r: nat, c: nat)
    requires forall i :: 0 <= i < |rows| ==> |rows[i]| == width
    requires r < |rows| && c < width
    ensures |Flatten(rows)| == |rows| * width
    ensures r * width + c < |Flatten(rows)| && Flatten(rows)[r * width + c] == rows[r][c]
  {
    FlattenLength(rows, width);
    if r > 0 {
      FlattenAt(rows[1..], width, r - 1, c);
      assert r * width + c == width + ((r - 1) * width + c);
    }
  }

  /** The writer succeeds exactly when both sizes fit a u16 and the number of
      values equals `in * hid + hid + hid + 1`. */
  lemma WriteSucceeds(inputSize: int, hiddenSize: int, p: Params, enc: real -> Cell)
    ensures WriteSnnue(inputSize, hiddenSize, p, enc).Ok? <==>
              && 0 <= inputSize < 65536 && 0 <= hiddenSize < 65536
              && |Floats(p)| == inputSize * hiddenSize + hiddenSize + hiddenSize + 1
  {
  }

  /** A shaped network's file starts with its `in * hid` weights of `w1`
      in row-major order (`FlattenAt` says where each one sits). */
  lemma FloatsWeights(inputSize: nat, hiddenSize: nat, p: Params)
    requires Shaped(p, inputSize, hiddenSize)
    ensures |Flatten(p.w1)| == inputSize * hiddenSize
    ensures |Floats(p)| == inputSize * hiddenSize + hiddenSize + hiddenSize + 1
    ensures Floats(p)[..inputSize * hiddenSize] == Flatten(p.w1)
  {
    FlattenLength(p.w1, hiddenSize);
    var flat := Flatten(p.w1);
    assert Floats(p) == flat + (p.b1 + p.w2 + [p.b2]);
  }

  /** After the `in * hid` weights of `w1` come `b1`, `w2` and `b2`. */
  lemma FloatsBiases(inputSize: nat, hiddenSize: nat, p: Params)
    requires Shaped(p, inputSize, hiddenSize)
    ensures var fl := Floats(p);
            var w := inputSize * hiddenSize;
            && |fl| == w + hiddenSize + hiddenSize + 1
            && (forall c :: 0 <= c < hiddenSize ==> fl[w + c] == p.b1[c])
            && (forall c :: 0 <= c < hiddenSize ==> fl[w + hiddenSize + c] == p.w2[c])
            && fl[w + hiddenSize + hiddenSize] == p.b2
  {
    FlattenLength(p.w1, hiddenSize);
    FloatsTail(Flatten(p.w1), p);
  }

  /** The biases and output weights follow the flattened `w1`. */
  lemma FloatsTail(flat: seq<real>, p: Params)
    requires flat == Flatten(p.w1)
    ensures var fl := Floats(p);
            var w := |flat|;
            && |fl| == w + |p.b1| + |p.w2| + 1
            && (forall k :: 0 <= k < w ==> fl[k] == flat[k])
            && (forall c :: 0 <= c < |p.b1| ==> fl[w + c] == p.b1[c])
            && (forall c :: 0 <= c < |p.w2| ==> fl[w + |p.b1| + c] == p.w2[c])
            && fl[w + |p.b1| + |p.w2|] == p.b2
  {
  }

  /** Parameters of the declared shape are always written, and reading the
      file back gives the declared sizes, version 1, flags 0 and one cell per
      value in the order of `Floats`. */
  lemma ShapedLayout(inputSize: nat, hiddenSize: nat, p: Params, enc: real -> Cell)
    requires inputSize < 65536 && hiddenSize < 65536 && Shaped(p, inputSize, hiddenSize)
    ensures WriteSnnue(inputSize, hiddenSize, p, enc).Ok?
    ensures var img := ReadSnnue(WriteSnnue(inputSize, hiddenSize, p, enc).value).value;
            && img.inputSize == inputSize && img.hiddenSize == hiddenSize
            && img.version == 1 && img.flags == 0
            && |img.cells| == inputSize * hiddenSize + hiddenSize + hiddenSize + 1
            && (forall k :: 0 <= k < |img.cells| ==> img.cells[k] == enc(Floats(p)[k]))
  {
    FlattenLength(p.w1, hiddenSize);
    ReadWritten(inputSize, hiddenSize, p, enc);
  }

  // ---------------------------------------------------------------------
  // The check compares only the total
  // ---------------------------------------------------------------------

  /** A one-row `w1` of two values declared as two rows of one: the total
      is still `2 * 1 + 1 + 1 + 1 = 5` values, so the file is written and
      a reader takes `w1[0][1]` for `w1[1][0]`. */
  lemma MisshapenWritten(enc: real -> Cell)
    ensures var p := Params([[1.0, 2.0]], [0.0], [0.0], 0.0);
            && !Shaped(p, 2, 1)
            && WriteSnnue(2, 1, p, enc).Ok?
  {
    var p := Params([[1.0, 2.0]], [0.0], [0.0], 0.0);
    assert Flatten(p.w1) == [1.0, 2.0];
    assert |Floats(p)| == 5;
  }

  /** The writer with the shape check the length comparison stands for. */
  function WriteSnnueChecked(inputSize: int, hiddenSize: int, p: Params, enc: real -> Cell): (r: Result<seq<Byte>, WriteError>)
    ensures r.Ok? ==> inputSize >= 0 && hiddenSize >= 0 && Shaped(p, inputSize, hiddenSize)
  {
    if inputSize < 0 || hiddenSize < 0 || !Shaped(p, inputSize, hiddenSize) then Err(ShapeMismatch)
    else WriteSnnue(inputSize, hiddenSize, p, enc)
  }

  /** The checked writer succeeds exactly on parameters of the declared
      shape whose sizes fit a u16, and then writes what the unchecked one does. */
  lemma CheckedWriteSucceeds(inputSize: int, hiddenSize: int, p: Params, enc: real -> Cell)
    ensures WriteSnnueChecked(inputSize, hiddenSize, p, enc).Ok? <==>
              0 <= inputSize < 65536 && 0 <= hiddenSize < 65536 && Shaped(p, inputSize, hiddenSize)
    ensures WriteSnnueChecked(inputSize, hiddenSize, p, enc).Ok? ==>
              WriteSnnueChecked(inputSize, hiddenSize, p, enc) == WriteSnnue(inputSize, hiddenSize, p, enc)
  {
    if 0 <= inputSize < 65536 && 0 <= hiddenSize < 65536 && Shaped(p, inputSize, hiddenSize) {
      ShapedLayout(inputSize, hiddenSize, p, enc);
    }
  }

  /** `main`'s last step: the trained parameters are written, by the writer
      as it stands, as a 768 x 64 network. The file is written exactly when
      the parameters hold 768 * 64 + 64 + 64 + 1 values, and is then 197136
      bytes long. */
  function Export(t: Trainer.Trained, enc: real -> Cell): (r: Result<seq<Byte>, WriteError>)
    ensures r.Ok? <==> |Floats(t.params)| == 49281
    ensures r.Ok? ==> |r.value| == 197136
    ensures r.Err? ==> r.error.SizeMismatch?
  {
    WriteSucceeds(768, 64, t.params, enc);
    WriteSnnue(768, 64, t.params, enc)
  }

  /** Training keeps the shape it starts from, so a run from 768 x 64
      parameters always yields a file of 197136 bytes. */
  lemma ExportSucceeds(p: Params, train: seq<Dataset.Sample>, val: seq<Dataset.Sample>, h: Trainer.Hyper, enc: real -> Cell)
    requires Shaped(p, 768, 64) && Trainer.Train(p, train, val, h).Ok?
    ensures Export(Trainer.Train(p, train, val, h).value, enc).Ok?
    ensures |Export(Trainer.Train(p, train, val, h).value, enc).value| == 197136
  {
    var t := Trainer.Train(p, train, val, h).value;
    FloatsWeights(768, 64, t.params);
  }
}
