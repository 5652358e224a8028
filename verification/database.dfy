/**
 * The write path of `COLMAPDatabase` (data_utils/inject_to_database.py): the per-connection cache
 * of the resolved prior layout, `update_image` and `update_camera`. The SQLite database is held
 * abstractly: the column names of `images`, whether a `pose_priors` table exists, and the rows of
 * `images`, `pose_priors` and `cameras` as maps keyed by their primary key.
 */
module Database {
  import opened Wrappers
  import opened Codec
  import opened Schema

  /** A value in an SQLite cell; a REAL is carried as its float64 bit pattern. */
  datatype Value = Null | Integer(i: int) | Real(bits: Word) | Text(s: string) | Blob(bytes: seq<Byte>)

  /** A row of `images`: column name to value. */
  type Row = map<string, Value>

  /** A row of `pose_priors`. */
  datatype PosePriorRow = PosePriorRow(position: seq<Byte>, coordinateSystem: int, positionCovariance: seq<Byte>)

  /** A row of `cameras`; `params` is a nullable BLOB. */
  datatype CameraRow = CameraRow(model: int, width: int, height: int, params: Option<seq<Byte>>, priorFocalLength: int)

  /** The bit pattern of numpy's `np.nan` as a float64. */
  const NAN: Word := 0x7FF8_0000_0000_0000

  /** The coordinate-system tag written for "unspecified". */
  const UNSPECIFIED_COORDINATE_SYSTEM: int := -1

  /** SQLite stores the keyword `True` as the integer 1. */
  const SQL_TRUE: int := 1

  // ---------------------------------------------------------------- the effect of the statements

  /**
   * The assignments of a `SET c1=?, c2=?, ...` list with its positional values, as a map from
   * column to value.
   */
  function Assignment(columns: seq<string>, values: seq<Value>): (m: map<string, Value>)
    requires |columns| == |values|
    ensures m.Keys == set c | c in columns
    ensures Distinct(columns) ==> forall i :: 0 <= i < |columns| ==> m[columns[i]] == values[i]
  {
    if columns == [] then map[]
    else
      var rest := Assignment(columns[1..], values[1..]);
      var m := map[columns[0] := values[0]] + rest;
      assert m.Keys == (set c | c in columns) by {
        assert forall c :: c in columns <==> c == columns[0] || c in columns[1..];
      }
      assert Distinct(columns) ==> forall i :: 0 <= i < |columns| ==> m[columns[i]] == values[i] by {
        if Distinct(columns) {
          DistinctTail(columns);
          forall i | 0 <= i < |columns| ensures m[columns[i]] == values[i] {
            if i > 0 {
              assert columns[1..][i - 1] == columns[i] && values[1..][i - 1] == values[i];
            }
          }
        }
      }
      m
  }

  /** The tail of a list of distinct names is distinct and does not hold its head. */
  lemma DistinctTail(names: seq<string>)
    requires names != [] && Distinct(names)
    ensures Distinct(names[1..]) && names[0] !in names[1..]
  {
    forall i, j | 0 <= i < j < |names[1..]| ensures names[1..][i] != names[1..][j] {
      assert names[1..][i] == names[i + 1] && names[1..][j] == names[j + 1];
    }
    forall k | 0 <= k < |names[1..]| ensures names[1..][k] != names[0] {
      assert names[1..][k] == names[k + 1];
    }
  }

  /** A `SET` list applied to one row: the assigned columns take their values, the others keep theirs. */
  function SetColumns(row: Row, columns: seq<string>, values: seq<Value>): (r: Row)
    requires |columns| == |values|
    ensures r.Keys == row.Keys + set c | c in columns
    ensures forall c :: c in row && c !in columns ==> r[c] == row[c]
    ensures Distinct(columns) ==> forall i :: 0 <= i < |columns| ==> r[columns[i]] == values[i]
  {
    row + Assignment(columns, values)
  }

  /** `UPDATE images SET columns=values WHERE image_id=id`: a no-op when there is no such row. */
  function UpdateRow(images: map<int, Row>, id: int, columns: seq<string>, values: seq<Value>): (r: map<int, Row>)
    requires |columns| == |values|
    ensures r.Keys == images.Keys
    ensures forall other :: other in images && other != id ==> r[other] == images[other]
    ensures id in images ==> r[id] == SetColumns(images[id], columns, values)
  {
    if id in images then images[id := SetColumns(images[id], columns, values)] else images
  }

  /** A row update that assigns only existing columns keeps every row's column set. */
  lemma UpdateRowKeepsColumns(images: map<int, Row>, id: int, columns: seq<string>, values: seq<Value>,
                              tableColumns: set<string>)
    requires |columns| == |values|
    requires forall other :: other in images ==> images[other].Keys == tableColumns
    requires forall c :: c in columns ==> c in tableColumns
    ensures var r := UpdateRow(images, id, columns, values);
            forall other :: other in r ==> r[other].Keys == tableColumns
  {
  }

  /** The REAL values of the seven pose components, in the order QW, QX, QY, QZ, TX, TY, TZ. */
  function Reals(pose: seq<Word>): seq<Value>
  {
    seq(|pose|, i requires 0 <= i < |pose| => Real(pose[i]))
  }

  /**
   * The inline-layout statement of `update_image`: the i-th resolved column receives the i-th
   * pose component and `camera_id` the camera id, on row `id` only; every other column and row
   * keeps its value.
   */
  function InlinePoseWrite(images: map<int, Row>, id: int, columns: seq<string>, pose: seq<Word>, cameraId: int)
    : (r: map<int, Row>)
    requires |columns| == |pose|
    ensures r.Keys == images.Keys
    ensures forall other :: other in images && other != id ==> r[other] == images[other]
    ensures id in images ==> r[id].Keys == images[id].Keys + (set c | c in columns) + {CAMERA_ID_COLUMN}
    ensures id in images && Distinct(columns + [CAMERA_ID_COLUMN]) ==>
              && (forall i :: 0 <= i < |columns| ==> r[id][columns[i]] == Real(pose[i]))
              && r[id][CAMERA_ID_COLUMN] == Integer(cameraId)
              && (forall c :: c in images[id] && c !in columns && c != CAMERA_ID_COLUMN ==> r[id][c] == images[id][c])
  {
    var all := columns + [CAMERA_ID_COLUMN];
    var values := Reals(pose) + [Integer(cameraId)];
    assert forall c :: c in all <==> c in columns || c == CAMERA_ID_COLUMN;
    assert forall i :: 0 <= i < |columns| ==> all[i] == columns[i] && values[i] == Real(pose[i]);
    assert all[|columns|] == CAMERA_ID_COLUMN && values[|columns|] == Integer(cameraId);
    UpdateRow(images, id, all, values)
  }

  /**
   * The `pose_priors` row written for an image in the separate-table layout: the position
   * `[TX, TY, TZ]` as 24 bytes, coordinate system -1, and a 3×3 covariance of nine NaNs as 72 bytes.
   * The orientation is not part of it.
   */
  function PriorRowFor(tx: Word, ty: Word, tz: Word): (r: PosePriorRow)
    ensures |r.position| == 24 && BlobToArray(r.position, Infer) == Ok([tx, ty, tz])
    ensures r.coordinateSystem == UNSPECIFIED_COORDINATE_SYSTEM
    ensures |r.positionCovariance| == 72
    ensures BlobToArray(r.positionCovariance, Dims([3, 3])) == Ok(seq(9, _ => NAN))
    ensures BlobToArray(r.positionCovariance, Infer) == Ok(seq(9, _ => NAN))
  {
    var position := [tx, ty, tz];
    var covariance := seq(9, _ => NAN);
    RoundTrip(position);
    RoundTrip(covariance);
    assert Product([3, 3]) == 9 by {
      assert [3, 3][1..] == [3] && [3][1..] == [];
    }
    RoundTripShaped(covariance, [3, 3]);
    PosePriorRow(ArrayToBlob(position), UNSPECIFIED_COORDINATE_SYSTEM, ArrayToBlob(covariance))
  }

  /**
   * The camera statement of `update_camera`: an update of the row keyed by the camera id, so it
   * never adds a row; on an existing row it stores the model, the image size, the parameters as
   * float64 bytes that decode back to exactly `params`, and marks the focal length as a prior.
   */
  function CameraUpdate(cameras: map<int, CameraRow>, id: int, model: int, width: int, height: int, params: seq<Word>)
    : (r: map<int, CameraRow>)
    ensures r.Keys == cameras.Keys
    ensures forall other :: other in cameras && other != id ==> r[other] == cameras[other]
    ensures id in cameras ==>
              && r[id].model == model && r[id].width == width && r[id].height == height
              && r[id].params.Some? && BlobToArray(r[id].params.value, Infer) == Ok(params)
              && r[id].priorFocalLength == SQL_TRUE
  {
    RoundTrip(params);
    if id in cameras then cameras[id := CameraRow(model, width, height, Some(ArrayToBlob(params)), SQL_TRUE)]
    else cameras
  }

  /** Writing the same camera twice leaves what writing it once does. */
  lemma CameraUpdateIdempotent(cameras: map<int, CameraRow>, id: int, model: int, width: int, height: int, params: seq<Word>)
    ensures var once := CameraUpdate(cameras, id, model, width, height, params);
            CameraUpdate(once, id, model, width, height, params) == once
  {
  }

  /** Repeating an `update_image` statement on the same row with the same values changes nothing more. */
  lemma UpdateRowIdempotent(images: map<int, Row>, id: int, columns: seq<string>, values: seq<Value>)
    requires |columns| == |values|
    ensures var once := UpdateRow(images, id, columns, values);
            UpdateRow(once, id, columns, values) == once
  {
    if id in images {
      var a := Assignment(columns, values);
      assert (images[id] + a) + a == images[id] + a;
    }
  }

  // ---------------------------------------------------------------- the connection

  /** One `COLMAPDatabase` connection: the database it sees and the cached prior layout. */
  class ColmapDatabase {
    /** The column names `PRAGMA table_info(images)` reports. */
    var imageColumns: set<string>
    /** Whether `sqlite_master` lists a table named `pose_priors`. */
    var posePriorsExists: bool
    var images: map<int, Row>
    var posePriors: map<int, PosePriorRow>
    var cameras: map<int, CameraRow>
    /** `self._image_prior_spec`: `None` until a resolution succeeds. */
    var imagePriorSpec: Option<PriorSpec>
    /** How many times the schema has been inspected on this connection. */
    ghost var schemaProbes: nat

    /**
     * Every `images` row has exactly the table's columns, `camera_id` among them, and a cached
     * layout is the one the schema resolves to.
     */
    ghost predicate Valid()
      reads this
    {
      && CAMERA_ID_COLUMN in imageColumns
      && (forall id :: id in images ==> images[id].Keys == imageColumns)
      && (imagePriorSpec.Some? ==> Resolve(imageColumns, posePriorsExists) == Ok(imagePriorSpec.value))
    }

    /** `COLMAPDatabase.connect`: a fresh connection has no cached layout. */
    constructor Connect(columns: set<string>, hasPosePriors: bool, imageRows: map<int, Row>,
                        priorRows: map<int, PosePriorRow>, cameraRows: map<int, CameraRow>)
      requires CAMERA_ID_COLUMN in columns
      requires forall id :: id in imageRows ==> imageRows[id].Keys == columns
      ensures Valid()
      ensures imageColumns == columns && posePriorsExists == hasPosePriors
      ensures images == imageRows && posePriors == priorRows && cameras == cameraRows
      ensures imagePriorSpec == None && schemaProbes == 0
    {
      imageColumns, posePriorsExists := columns, hasPosePriors;
      images, posePriors, cameras := imageRows, priorRows, cameraRows;
      imagePriorSpec := None;
      schemaProbes := 0;
    }

    /**
     * `_get_image_prior_spec`: a cached layout is returned without inspecting the schema;
     * otherwise the schema is inspected once and a successful result is cached. No table changes.
     */
    method GetImagePriorSpec() returns (r: Result<PriorSpec, SchemaError>)
      requires Valid()
      modifies this`imagePriorSpec, this`schemaProbes
      ensures Valid()
      ensures r == Resolve(imageColumns, posePriorsExists)
      ensures old(imagePriorSpec).Some? ==> r == Ok(old(imagePriorSpec).value) && imagePriorSpec == old(imagePriorSpec)
      ensures imagePriorSpec == if r.Ok? then Some(r.value) else None
      ensures schemaProbes == if old(imagePriorSpec).Some? then old(schemaProbes) else old(schemaProbes) + 1
      ensures images == old(images) && posePriors == old(posePriors) && cameras == old(cameras)
    {
      if imagePriorSpec.Some? {
        return Ok(imagePriorSpec.value);
      }
      schemaProbes := schemaProbes + 1;
      var columnNames := imageColumns;
      var q := SelectCandidates(PRIOR_Q_COLUMN_CANDIDATES, columnNames);
      var t := SelectCandidates(PRIOR_T_COLUMN_CANDIDATES, columnNames);
      if |q| == 4 && |t| == 3 {
        imagePriorSpec := Some(Inline(q, t));
      } else if posePriorsExists {
        imagePriorSpec := Some(PosePriors);
      } else {
        return Err(UnexpectedSchema(MissingColumns(columnNames)));
      }
      r := Ok(imagePriorSpec.value);
    }

    /**
     * `update_image`: dispatches on the resolved layout. Inline: one UPDATE of the seven resolved
     * columns and `camera_id`. Separate table: `camera_id` on the image row, then INSERT OR REPLACE
     * of the image's `pose_priors` row from the position alone. Unrecognised schema: the error,
     * and nothing written.
     */
    method UpdateImage(imageId: int, qw: Word, qx: Word, qy: Word, qz: Word, tx: Word, ty: Word, tz: Word,
                       cameraId: int)
      returns (r: Result<(), SchemaError>)
      requires Valid()
      modifies this`images, this`posePriors, this`imagePriorSpec, this`schemaProbes
      ensures Valid()
      ensures schemaProbes == if old(imagePriorSpec).Some? then old(schemaProbes) else old(schemaProbes) + 1
      ensures var resolved := Resolve(imageColumns, posePriorsExists);
              match resolved
              case Err(e) =>
                r == Err(e) && imagePriorSpec == None && images == old(images) && posePriors == old(posePriors)
              case Ok(Inline(q, t)) =>
                && r == Ok(()) && imagePriorSpec == Some(resolved.value)
                && images == InlinePoseWrite(old(images), imageId, q + t, [qw, qx, qy, qz, tx, ty, tz], cameraId)
                && posePriors == old(posePriors)
              case Ok(PosePriors) =>
                && r == Ok(()) && imagePriorSpec == Some(PosePriors)
                && images == UpdateRow(old(images), imageId, [CAMERA_ID_COLUMN], [Integer(cameraId)])
                && posePriors == old(posePriors)[imageId := PriorRowFor(tx, ty, tz)]
    {
      var priorSpec := GetImagePriorSpec();
      if priorSpec.Err? {
        return Err(priorSpec.error);
      }
      match priorSpec.value {
        case Inline(q, t) =>
          InlineColumnsDistinct(imageColumns, posePriorsExists);
          UpdateRowKeepsColumns(images, imageId, q + t + [CAMERA_ID_COLUMN],
                                Reals([qw, qx, qy, qz, tx, ty, tz]) + [Integer(cameraId)], imageColumns);
          images := InlinePoseWrite(images, imageId, q + t, [qw, qx, qy, qz, tx, ty, tz], cameraId);
        case PosePriors =>
          UpdateRowKeepsColumns(images, imageId, [CAMERA_ID_COLUMN], [Integer(cameraId)], imageColumns);
          images := UpdateRow(images, imageId, [CAMERA_ID_COLUMN], [Integer(cameraId)]);
          posePriors := posePriors[imageId := PriorRowFor(tx, ty, tz)];
      }
      r := Ok(());
    }

    /** `update_camera`: see `CameraUpdate`; nothing else changes. */
    method UpdateCamera(model: int, width: int, height: int, params: seq<Word>, cameraId: int)
      requires Valid()
      modifies this`cameras
      ensures Valid()
      ensures cameras == CameraUpdate(old(cameras), cameraId, model, width, height, params)
    {
      cameras := CameraUpdate(cameras, cameraId, model, width, height, params);
    }
  }
}
