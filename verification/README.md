# Pose-prior writer of `COLMAPDatabase`, modelled in Dafny

This project models the part of `data_utils/inject_to_database.py` that writes pose priors and
camera parameters into a COLMAP SQLite database whose `images` schema is not known in advance.
The model covers four pieces:

- **Schema resolver.** `COLMAPDatabase._get_image_prior_spec` reads the `images` column names.
  For each of the seven pose roles (QW, QX, QY, QZ, TX, TY, TZ) it picks the first of two
  synonyms present: the older `prior_*` name before the newer `qvec_prior_*` / `tvec_prior_*`
  name.
  - If all seven roles resolve, the priors are stored inline in `images`.
  - Otherwise, if the database has a `pose_priors` table, they go there.
  - Otherwise resolution fails with the sorted list of the known synonyms that are absent.
  - A successful result is cached on the connection.
- **Image writer.** `update_image` dispatches on that layout.
  - Inline: a single UPDATE sets the seven resolved columns and `camera_id`.
  - Separate table: `camera_id` is updated on the image row. Then an INSERT OR REPLACE writes
    the image's `pose_priors` row: the position `[TX, TY, TZ]`, coordinate system -1 and a 3×3
    covariance of NaNs. The orientation is stored nowhere.
- **Camera writer.** `update_camera` is an UPDATE of one camera row by id. It never inserts.
- **Array codec.** `array_to_blob` and `blob_to_array` convert between arrays and the raw
  bytes of their elements. The model fixes the element type to float64 (8 bytes per element) and
  the byte order to little-endian; see "Left out".

The database is held abstractly as:
- the column names of `images`;
- whether `pose_priors` exists;
- the `images`, `pose_priors` and `cameras` rows, as maps keyed by primary key.

A float64 is carried as its 64-bit pattern (`Codec.Word`), since nothing in the core computes with
it. NaN is numpy's `np.nan` pattern `0x7FF8000000000000`.

Files:
- `wrappers.dfy` — `Option` and `Result`.
- `codec.dfy` — module `Codec`: the array codec.
- `schema.dfy` — module `Schema`, pure functions:
  - the candidate tables;
  - synonym selection, with its loop as a method proved against the recursive definition;
  - the order Python's `sorted` uses on names, and the error list;
  - the layout decision `Resolve`, with the lemmas about it.
- `database.dfy` — module `Database`:
  - functions giving the effect of each SQL statement on the tables;
  - class `ColmapDatabase`, holding the tables and the cached layout, with the methods
    `GetImagePriorSpec`, `UpdateImage` and `UpdateCamera`.
- `scenarios.dfy` — module `Scenarios`: the two tests of `tests/test_colmap_database.py`, replayed
  on the class.

## Model

| member | source | states |
|---|---|---|
| Codec.ArrayToBlob | data_utils/inject_to_database.py:93-97 | the blob of n float64 values is exactly 8·n bytes |
| Codec.ValueOfLittleEndian | data_utils/inject_to_database.py:93-97 | the n little-endian bytes written for any value below 256^n read back as that value, so each 8-byte element keeps its word |
| Codec.LittleEndianOfValue | data_utils/inject_to_database.py:100-104 | any group of bytes is the little-endian encoding of the value it reads as |
| Codec.BlobToArray | data_utils/inject_to_database.py:100-104 | decoding succeeds exactly when the byte count is a multiple of 8 and, for an explicit shape, the shape is not empty and the product of its dimensions times 8 equals the byte count. A failure is the buffer-size error exactly when the byte count is not a multiple of 8. It is the no-shape error (`reshape()` without argument) exactly when the byte count is whole and the shape is `()` |
| Codec.ElementsOfBlob | data_utils/inject_to_database.py:93-104 | cutting the encoding of a word sequence into 8-byte elements gives the sequence back |
| Codec.BlobOfElements | data_utils/inject_to_database.py:93-104 | re-encoding the elements read from a blob of whole elements gives the blob back |
| Codec.RoundTripShaped | data_utils/inject_to_database.py:93-104 | decoding the encoding of a word sequence with any non-empty shape holding exactly its element count gives the sequence back |
| Codec.RoundTrip | data_utils/inject_to_database.py:93-104 | decoding the encoding of any word sequence gives it back: with the default shape `(-1,)`, and with every non-empty shape whose dimensions multiply to its length, such as `(n,)` or the covariance's `(3, 3)` |
| Codec.DecodedBlobIsEncoding | data_utils/inject_to_database.py:100-104 | a blob that decodes successfully is exactly the encoding of what it decodes to |
| Schema.FirstPresent | data_utils/inject_to_database.py:152-155 | the synonym chosen for a role is a column and no earlier synonym of the role is a column; nothing is chosen exactly when no synonym is a column |
| Schema.Selected | data_utils/inject_to_database.py:149-156 | selection yields at most one column per role, each of them a column of the table |
| Schema.SelectedAllRoles | data_utils/inject_to_database.py:149-156 | selection yields one name per role exactly when every role has a synonym present, and then the i-th name is role i's first present synonym |
| Schema.SelectCandidates | data_utils/inject_to_database.py:149-156 | the nested loop with `break` returns the selection `Selected` defines |
| Schema.BelowTransitive | data_utils/inject_to_database.py:184 | the code-point order on names is transitive |
| Schema.BelowIrreflexive | data_utils/inject_to_database.py:184 | no name is before itself |
| Schema.BelowTotal | data_utils/inject_to_database.py:184 | of two different names one is before the other |
| Schema.SortedIsDistinct | data_utils/inject_to_database.py:184 | a strictly sorted list repeats no name |
| Schema.Insert | data_utils/inject_to_database.py:184 | inserting into a sorted list keeps it sorted and adds exactly the new name |
| Schema.Sorted | data_utils/inject_to_database.py:184 | sorting gives a strictly ascending list of exactly the input's names |
| Schema.Flatten | data_utils/inject_to_database.py:177-183 | the flattened candidate tables hold exactly the synonyms of every role |
| Schema.Absent | data_utils/inject_to_database.py:184 | the names kept are exactly those that are not columns |
| Schema.MissingColumns | data_utils/inject_to_database.py:177-189 | the error list holds exactly the known synonyms that are not columns, strictly ascending |
| Schema.KnownColumnsByName | data_utils/inject_to_database.py:106-116 | the known synonyms are exactly the fourteen names of the two candidate tables |
| Schema.FirstPresentOfPair | data_utils/inject_to_database.py:152-155 | for a two-synonym role, the older name wins when present, else the newer one |
| Schema.ResolveInline | data_utils/inject_to_database.py:158-166 | the layout is inline exactly when every role resolves, whether or not `pose_priors` exists, with the preferred synonym per role in role order |
| Schema.ResolveFallback | data_utils/inject_to_database.py:167-190 | when some role is missing, the layout is the separate table if it exists, else an error listing exactly the missing known synonyms, sorted |
| Schema.InlineColumnsDistinct | data_utils/inject_to_database.py:161-166 | an inline layout names seven distinct columns of the table, none of them `camera_id` |
| Schema.PreferredChoices | data_utils/inject_to_database.py:106-116 | each role resolves to one of its own two synonyms |
| Schema.PriorNamesDistinct | data_utils/inject_to_database.py:106-116 | one synonym per role plus `camera_id` are eight different names |
| Schema.InlineAvailableByName | data_utils/inject_to_database.py:158-161 | inline storage is available exactly when, for each role, its older or newer name is a column |
| Schema.PreferredByName | data_utils/inject_to_database.py:152-155 | for each role, the older name is chosen when present and the newer one otherwise |
| Schema.ModernLayoutResolvesInline | data_utils/inject_to_database.py:158-166 | a table with all newer names and no older ones resolves inline to the newer names |
| Schema.LegacyLayoutResolvesInline | data_utils/inject_to_database.py:158-166 | a table with all older names resolves inline to the older names, whatever else it has |
| Schema.BareLayout | data_utils/inject_to_database.py:167-190 | a table with no prior column resolves to `pose_priors` when that exists, and otherwise fails listing all fourteen synonyms |
| Schema.PartialLegacyLayoutFails | data_utils/inject_to_database.py:167-190 | a table with the older names but no TZ column, and no `pose_priors` table, fails; the list names `prior_tz` and the unused `qvec_prior_w`, but not `prior_qw` |
| Database.Assignment | data_utils/inject_to_database.py:205-208 | a `SET` list with positional values assigns exactly its columns, the i-th column the i-th value |
| Database.SetColumns | data_utils/inject_to_database.py:205-209 | an UPDATE on a row sets the listed columns positionally and leaves every other column unchanged |
| Database.UpdateRow | data_utils/inject_to_database.py:212-215 | `UPDATE ... WHERE image_id=?` touches only that row, adds no row, and is a no-op when the id is absent |
| Database.UpdateRowKeepsColumns | data_utils/inject_to_database.py:205-215 | an UPDATE of existing columns keeps every row's column set |
| Database.UpdateRowIdempotent | data_utils/inject_to_database.py:207-215 | running the same UPDATE twice gives the same tables as running it once |
| Database.InlinePoseWrite | data_utils/inject_to_database.py:202-210 | on the image row, the i-th resolved column gets the i-th of QW..TZ and `camera_id` gets CAMERA_ID; other columns and rows are unchanged; no row is added |
| Database.PriorRowFor | data_utils/inject_to_database.py:216-227 | the `pose_priors` row has a 24-byte position decoding to `[TX, TY, TZ]`, coordinate system -1, and a 72-byte covariance decoding, as 3×3 or flat, to nine NaNs |
| Database.CameraUpdate | data_utils/inject_to_database.py:193-197 | `update_camera` never adds a camera; an existing one gets the model, width, height, params encoded so they decode back exactly, and `prior_focal_length` 1; others are untouched |
| Database.CameraUpdateIdempotent | data_utils/inject_to_database.py:193-197 | writing the same camera twice leaves what writing it once does |
| Database.ColmapDatabase.Connect | data_utils/inject_to_database.py:125-142 | a new connection starts with no cached layout over the given tables |
| Database.ColmapDatabase.GetImagePriorSpec | data_utils/inject_to_database.py:144-191 | the result is the layout the schema resolves to. A cached layout is returned as is, without inspecting the schema. Otherwise the schema is inspected once and only a success is cached. No table changes |
| Database.ColmapDatabase.UpdateImage | data_utils/inject_to_database.py:200-229 | on an unrecognised schema, returns the error and writes nothing. Inline: exactly `InlinePoseWrite`, and `pose_priors` unchanged. Separate table: only `camera_id` on the image row, and the image's `pose_priors` entry set or replaced by `PriorRowFor(TX, TY, TZ)` |
| Database.ColmapDatabase.UpdateCamera | data_utils/inject_to_database.py:193-198 | the cameras become `CameraUpdate` of the old ones; nothing else changes |
| Scenarios.ModernTableResolves | tests/test_colmap_database.py:14-29 | the test's newer-named `images` table resolves inline to the newer names |
| Scenarios.BareTableResolves | tests/test_colmap_database.py:32-47 | the test's bare `images` table resolves to `pose_priors`, and would fail without that table |
| Scenarios.ModernColumnsDistinct | tests/test_colmap_database.py:62-66 | the seven columns the first test reads back, plus `camera_id`, are distinct |
| Scenarios.ModernPriorColumns | tests/test_colmap_database.py:50-69 | after `update_image(1, 1.0, 0.0, 0.0, 0.0, 0.1, 0.2, 0.3, 2)`, the seven prior columns read back as the pose and `camera_id` is 2. Other columns are kept and no `pose_priors` row is written |
| Scenarios.PosePriorTable | tests/test_colmap_database.py:72-104 | after `update_image(1, 0.0, 0.0, 0.0, 1.0, 0.1, 0.2, 0.3, 2)`, image 1 has camera 2. Its `pose_priors` row decodes to position (0.1, 0.2, 0.3), coordinate system -1 and nine NaN covariance entries |

## Left out

- SQLite is abstract state here. Not modelled: SQL text construction, `PRAGMA table_info`, the
  `sqlite_master` lookup, `commit` and `close`, and errors raised by the engine. The column set
  and the table-exists flag are fields, fixed for the life of a connection. A schema change
  after connecting is not modelled.
- Neither modelled: the DDL constants and the `create_*` helpers (data_utils/inject_to_database.py:11-91 and 128-141). They are fixed text run by the engine.
- Database.ColmapDatabase.UpdateImage: returns `()` in place of `cursor.lastrowid`, whose value
  after an UPDATE is defined by the engine.
- Database.ColmapDatabase.UpdateCamera: the same applies.
- `camTodatabase`, `imgTodatabase` and the command-line entry point: file reading, text parsing,
  and read-back checks that use floating-point tolerance.
- Codec.ArrayToBlob: numpy's `tobytes` and `frombuffer` use the host's native byte order and the
  array's or the given `dtype`. The model fixes float64 in little-endian order, the order the
  test's `"<3d"` / `"<9d"` unpacking assumes. A big-endian host and other dtypes are not modelled.
- Codec.BlobToArray: the same applies.
- IEEE-754: values are opaque 64-bit patterns. No NaN comparison semantics, no `math.isclose`.
  The test's 0.1, 0.2 and 0.3 are their exact float64 patterns.
- Codec.BlobToArray: shapes are `(-1,)` or all-explicit dimensions. numpy's `-1` inside a
  multi-dimensional shape is not modelled (the core never passes one). The result is the flat
  element sequence, without an array shape.
- The Python 2 `np.getbuffer` branch.
- Database.CameraUpdate: `np.asarray(params, np.float64)` conversion is taken as already done —
  `params` arrives as float64 patterns.
- Database.CameraUpdate: `model`, `width` and `height` are unbounded integers, without SQLite's
  64-bit range.
- Foreign keys are not enforced. SQLite leaves them off unless a connection enables them, and this
  connection does not. So the `pose_priors` row is written even when the image id has no
  `images` row.
- The cascading delete from `images` to `pose_priors` is not modelled: no delete is part of this core.
- Database.ColmapDatabase.Connect requires every `images` table to have a `camera_id` column,
  as every schema the core writes to does. The core's UPDATE would fail without it.
- Schema.MissingColumns: returns the list of names. The text of the `RuntimeError` that joins it
  with `", "` is not modelled.
