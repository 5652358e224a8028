/**
 * The two tests of tests/test_colmap_database.py replayed on the model: an `images` table with the
 * newer inline names, and an `images` table without prior columns beside a `pose_priors` table.
 * Each float literal is written as its float64 bit pattern.
 */
module Scenarios {
  import opened Wrappers
  import opened Codec
  import opened Schema
  import opened Database

  const ZERO: Word := 0                            // 0.0
  const ONE: Word := 0x3FF0_0000_0000_0000         // 1.0
  const POINT_ONE: Word := 0x3FB9_9999_9999_999A   // 0.1
  const POINT_TWO: Word := 0x3FC9_9999_9999_999A   // 0.2
  const POINT_THREE: Word := 0x3FD3_3333_3333_3333 // 0.3

  /** The seven newer-named prior columns, in the order the first test reads them back. */
  const MODERN_Q_COLUMNS: seq<string> := ["qvec_prior_w", "qvec_prior_x", "qvec_prior_y", "qvec_prior_z"]
  const MODERN_T_COLUMNS: seq<string> := ["tvec_prior_x", "tvec_prior_y", "tvec_prior_z"]

  /** The pose of the first test, `(1.0, 0.0, 0.0, 0.0, 0.1, 0.2, 0.3)`. */
  const MODERN_POSE: seq<Word> := [ONE, ZERO, ZERO, ZERO, POINT_ONE, POINT_TWO, POINT_THREE]

  /** Image 1 of the first test before the update: camera 1 and all priors zero. */
  function ModernImage(): Row
  {
    map[
      "image_id" := Integer(1), "name" := Text("test.png"), "camera_id" := Integer(1),
      "qvec_prior_w" := Real(ZERO), "qvec_prior_x" := Real(ZERO), "qvec_prior_y" := Real(ZERO),
      "qvec_prior_z" := Real(ZERO), "tvec_prior_x" := Real(ZERO), "tvec_prior_y" := Real(ZERO),
      "tvec_prior_z" := Real(ZERO)]
  }

  /** Image 1 of the second test: `images` has only its three base columns. */
  function BareImage(): Row
  {
    map["image_id" := Integer(1), "name" := Text("test.png"), "camera_id" := Integer(1)]
  }

  /** The newer-named table resolves inline to the newer names, whether or not `pose_priors` exists. */
  lemma ModernTableResolves(posePriorsExists: bool)
    ensures Resolve(ModernImage().Keys, posePriorsExists) == Ok(Inline(MODERN_Q_COLUMNS, MODERN_T_COLUMNS))
  {
    var columns := ModernImage().Keys;
    assert "qvec_prior_w" in columns && "qvec_prior_x" in columns && "qvec_prior_y" in columns && "qvec_prior_z" in columns;
    assert "tvec_prior_x" in columns && "tvec_prior_y" in columns && "tvec_prior_z" in columns;
    assert "prior_qw" !in columns && "prior_qx" !in columns && "prior_qy" !in columns && "prior_qz" !in columns;
    assert "prior_tx" !in columns && "prior_ty" !in columns && "prior_tz" !in columns;
    ModernLayoutResolvesInline(columns, posePriorsExists);
  }

  /** The bare table resolves to `pose_priors` when that table exists, and fails otherwise. */
  lemma BareTableResolves()
    ensures Resolve(BareImage().Keys, true) == Ok(PosePriors)
    ensures Resolve(BareImage().Keys, false).Err?
  {
    var columns := BareImage().Keys;
    KnownColumnsByName();
    assert columns == {"image_id", "name", "camera_id"};
    forall c | c in KnownColumns() ensures c !in columns {
      assert c in SYNONYMS;
    }
    BareLayout(columns, true);
    BareLayout(columns, false);
  }

  /** One pose component per newer-named column, and `camera_id`: eight different names. */
  lemma ModernColumnsDistinct()
    ensures Distinct(MODERN_Q_COLUMNS + MODERN_T_COLUMNS + [CAMERA_ID_COLUMN])
  {
    var columns := MODERN_Q_COLUMNS + MODERN_T_COLUMNS;
    assert columns == ["qvec_prior_w", "qvec_prior_x", "qvec_prior_y", "qvec_prior_z",
                       "tvec_prior_x", "tvec_prior_y", "tvec_prior_z"];
    PriorNamesDistinct(columns[0], columns[1], columns[2], columns[3], columns[4], columns[5], columns[6]);
    assert columns + [CAMERA_ID_COLUMN] ==
           [columns[0], columns[1], columns[2], columns[3], columns[4], columns[5], columns[6], CAMERA_ID_COLUMN];
  }

  /**
   * The first test: `update_image(1, 1.0, 0.0, 0.0, 0.0, 0.1, 0.2, 0.3, 2)` on the newer-named table
   * succeeds; reading back the seven newer-named columns of image 1, in the test's order, gives the
   * pose; its camera is 2; its other columns and the `pose_priors` table are untouched.
   */
  method ModernPriorColumns() returns (r: Result<(), SchemaError>, images: map<int, Row>,
                                       posePriors: map<int, PosePriorRow>)
    ensures r == Ok(()) && posePriors == map[]
    ensures images.Keys == {1} && images[1].Keys == ModernImage().Keys
    ensures forall i :: 0 <= i < 7 ==> images[1][(MODERN_Q_COLUMNS + MODERN_T_COLUMNS)[i]] == Real(MODERN_POSE[i])
    ensures images[1][CAMERA_ID_COLUMN] == Integer(2)
    ensures forall c :: c in ModernImage() && c !in MODERN_Q_COLUMNS + MODERN_T_COLUMNS && c != CAMERA_ID_COLUMN ==>
              images[1][c] == ModernImage()[c]
  {
    ModernTableResolves(false);
    ModernColumnsDistinct();
    var db := new ColmapDatabase.Connect(ModernImage().Keys, false, map[1 := ModernImage()], map[], map[]);
    r := db.UpdateImage(1, ONE, ZERO, ZERO, ZERO, POINT_ONE, POINT_TWO, POINT_THREE, 2);
    images, posePriors := db.images, db.posePriors;
  }

  /**
   * The second test: `update_image(1, 0.0, 0.0, 0.0, 1.0, 0.1, 0.2, 0.3, 2)` on the bare table sets
   * camera 2 on image 1 and writes a `pose_priors` row for image 1 whose position decodes as three
   * doubles to (0.1, 0.2, 0.3), whose coordinate system is -1 and whose covariance decodes as nine
   * doubles that are all NaN.
   */
  method PosePriorTable() returns (r: Result<(), SchemaError>, images: map<int, Row>,
                                   posePriors: map<int, PosePriorRow>)
    ensures r == Ok(())
    ensures images.Keys == {1} && images[1].Keys == BareImage().Keys
    ensures images[1][CAMERA_ID_COLUMN] == Integer(2)
    ensures forall c :: c in BareImage() && c != CAMERA_ID_COLUMN ==> images[1][c] == BareImage()[c]
    ensures posePriors.Keys == {1}
    ensures BlobToArray(posePriors[1].position, Infer) == Ok([POINT_ONE, POINT_TWO, POINT_THREE])
    ensures posePriors[1].coordinateSystem == -1
    ensures BlobToArray(posePriors[1].positionCovariance, Infer) == Ok(seq(9, _ => NAN))
  {
    BareTableResolves();
    var db := new ColmapDatabase.Connect(BareImage().Keys, true, map[1 := BareImage()], map[], map[]);
    r := db.UpdateImage(1, ZERO, ZERO, ZERO, ONE, POINT_ONE, POINT_TWO, POINT_THREE, 2);
    images, posePriors := db.images, db.posePriors;
  }
}
