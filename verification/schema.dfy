/**
 * The schema resolver of `COLMAPDatabase._get_image_prior_spec` (data_utils/inject_to_database.py):
 * the synonym tables for the seven prior-pose roles, the first-present selection per role,
 * the choice between the inline-column layout and the separate `pose_priors` table, and the
 * error raised when neither is available.
 */
module Schema {
  import opened Wrappers

  /** Orientation roles qw, qx, qy, qz; each lists its synonyms, older name first. */
  const PRIOR_Q_COLUMN_CANDIDATES: seq<seq<string>> := [
    ["prior_qw", "qvec_prior_w"],
    ["prior_qx", "qvec_prior_x"],
    ["prior_qy", "qvec_prior_y"],
    ["prior_qz", "qvec_prior_z"]
  ]

  /** Position roles tx, ty, tz. */
  const PRIOR_T_COLUMN_CANDIDATES: seq<seq<string>> := [
    ["prior_tx", "tvec_prior_x"],
    ["prior_ty", "tvec_prior_y"],
    ["prior_tz", "tvec_prior_z"]
  ]

  /** How the prior pose of an image is stored in the connected database. */
  datatype PriorSpec =
    | Inline(qColumns: seq<string>, tColumns: seq<string>)   // columns of `images`, in role order
    | PosePriors                                             // rows of the separate `pose_priors` table

  /** The `RuntimeError` raised for an unrecognised schema; `absent` is the list in its message. */
  datatype SchemaError = UnexpectedSchema(absent: seq<string>)

  // ---------------------------------------------------------------- candidate selection

  /** Some synonym of `group` is a column. */
  ghost predicate Present(group: seq<string>, columns: set<string>)
  {
    exists k :: 0 <= k < |group| && group[k] in columns
  }

  /** Every role of `groups` has some synonym among the columns. */
  ghost predicate AllPresent(groups: seq<seq<string>>, columns: set<string>)
  {
    forall i :: 0 <= i < |groups| ==> Present(groups[i], columns)
  }

  /** The first synonym of `group`, in group order, that is a column. */
  function FirstPresent(group: seq<string>, columns: set<string>): (r: Option<string>)
    ensures r.None? <==> !Present(group, columns)
    ensures r.Some? ==> r.value in columns
    ensures r.Some? ==> exists k :: 0 <= k < |group| && group[k] == r.value &&
                                    forall j :: 0 <= j < k ==> group[j] !in columns
  {
    if group == [] then None
    else if group[0] in columns then Some(group[0])
    else
      var r := FirstPresent(group[1..], columns);
      assert Present(group, columns) ==> Present(group[1..], columns) by {
        if Present(group, columns) {
          var k :| 0 <= k < |group| && group[k] in columns;
          assert group[1..][k - 1] == group[k];
        }
      }
      assert r.Some? ==> exists k :: 0 <= k < |group| && group[k] == r.value &&
                                     forall j :: 0 <= j < k ==> group[j] !in columns by {
        if r.Some? {
          var k :| 0 <= k < |group[1..]| && group[1..][k] == r.value &&
                   forall j :: 0 <= j < k ==> group[1..][j] !in columns;
          assert group[k + 1] == r.value;
          forall j | 0 <= j < k + 1 ensures group[j] !in columns {
            if j > 0 { assert group[j] == group[1..][j - 1]; }
          }
        }
      }
      r
  }

  /**
   * What `_select_candidates` returns: for each role in order, its first present synonym;
   * a role with no present synonym contributes nothing.
   */
  function Selected(groups: seq<seq<string>>, columns: set<string>): (r: seq<string>)
    ensures |r| <= |groups|
    ensures forall i :: 0 <= i < |r| ==> r[i] in columns
  {
    if groups == [] then []
    else
      var init := Selected(groups[..|groups| - 1], columns);
      match FirstPresent(groups[|groups| - 1], columns)
      case None => init
      case Some(c) => init + [c]
  }

  /**
   * All roles are selected exactly when every role has a present synonym, and then the
   * i-th selected column is the first present synonym of role i.
   */
  lemma {:induction false} SelectedAllRoles(groups: seq<seq<string>>, columns: set<string>)
    ensures |Selected(groups, columns)| == |groups| <==> AllPresent(groups, columns)
    ensures |Selected(groups, columns)| == |groups| ==>
              forall i :: 0 <= i < |groups| ==> Selected(groups, columns)[i] == FirstPresent(groups[i], columns).value
  {
    if groups != [] {
      var n := |groups| - 1;
      var init := groups[..n];
      SelectedAllRoles(init, columns);
      assert forall i :: 0 <= i < n ==> init[i] == groups[i];
      if AllPresent(groups, columns) {
        assert AllPresent(init, columns);
        assert Present(groups[n], columns);
      } else if AllPresent(init, columns) {
        assert !Present(groups[n], columns);
      }
    }
  }

  /** `_select_candidates`: nested loops that append the first present synonym of each role and break. */
  method SelectCandidates(groups: seq<seq<string>>, columns: set<string>) returns (selected: seq<string>)
    ensures selected == Selected(groups, columns)
  {
    selected := [];
    for i := 0 to |groups|
      invariant selected == Selected(groups[..i], columns)
    {
      assert groups[..i + 1][..i] == groups[..i];
      var group := groups[i];
      var j := 0;
      while j < |group|
        invariant 0 <= j <= |group|
        invariant FirstPresent(group[j..], columns) == FirstPresent(group, columns)
        invariant selected == Selected(groups[..i], columns)
      {
        if group[j] in columns {
          selected := selected + [group[j]];
          break;
        }
        assert group[j..][1..] == group[j + 1..];
        j := j + 1;
      }
    }
    assert groups[..|groups|] == groups;
  }

  // ---------------------------------------------------------------- the missing-column report

  /** Strict lexicographic order on strings by code point, the order of Python's `sorted` on `str`. */
  predicate Below(a: string, b: string)
  {
    if a == [] then b != []
    else if b == [] then false
    else a[0] < b[0] || (a[0] == b[0] && Below(a[1..], b[1..]))
  }

  lemma {:induction false} BelowTransitive(a: string, b: string, c: string)
    requires Below(a, b) && Below(b, c)
    ensures Below(a, c)
  {
    if a != [] && a[0] == b[0] && b[0] == c[0] {
      BelowTransitive(a[1..], b[1..], c[1..]);
    }
  }

  lemma {:induction false} BelowIrreflexive(a: string)
    ensures !Below(a, a)
  {
    if a != [] {
      BelowIrreflexive(a[1..]);
    }
  }

  lemma {:induction false} BelowTotal(a: string, b: string)
    requires a != b
    ensures Below(a, b) || Below(b, a)
  {
    if a != [] && b != [] && a[0] == b[0] {
      assert a == [a[0]] + a[1..] && b == [b[0]] + b[1..];
      BelowTotal(a[1..], b[1..]);
    }
  }

  ghost predicate StrictlySorted(s: seq<string>)
  {
    forall i, j :: 0 <= i < j < |s| ==> Below(s[i], s[j])
  }

  /** No name occurs twice. */
  ghost predicate Distinct(s: seq<string>)
  {
    forall i, j :: 0 <= i < j < |s| ==> s[i] != s[j]
  }

  /** A strictly sorted list names nothing twice. */
  lemma SortedIsDistinct(s: seq<string>)
    requires StrictlySorted(s)
    ensures Distinct(s)
  {
    forall i, j | 0 <= i < j < |s| ensures s[i] != s[j] {
      BelowIrreflexive(s[i]);
    }
  }

  /** Inserts `x` into the sorted `s` at its place; a name already present is not repeated. */
  function Insert(x: string, s: seq<string>): (r: seq<string>)
    requires StrictlySorted(s)
    ensures StrictlySorted(r)
    ensures forall c :: c in r <==> c == x || c in s
  {
    if s == [] then [x]
    else if x == s[0] then s
    else if Below(x, s[0]) then
      assert forall j :: 0 < j < |s| ==> Below(x, s[j]) by {
        forall j | 0 < j < |s| ensures Below(x, s[j]) { BelowTransitive(x, s[0], s[j]); }
      }
      [x] + s
    else
      BelowTotal(x, s[0]);
      var tail := s[1..];
      assert StrictlySorted(tail) by {
        forall i, j | 0 <= i < j < |tail| ensures Below(tail[i], tail[j]) {
          assert tail[i] == s[i + 1] && tail[j] == s[j + 1];
        }
      }
      var rest := Insert(x, tail);
      assert forall j :: 0 <= j < |rest| ==> Below(s[0], rest[j]) by {
        forall j | 0 <= j < |rest| ensures Below(s[0], rest[j]) {
          if rest[j] != x {
            assert rest[j] in rest;
            assert rest[j] in tail;
            var k :| 0 <= k < |tail| && tail[k] == rest[j];
            assert s[k + 1] == rest[j];
          }
        }
      }
      [s[0]] + rest
  }

  /** Python's `sorted` applied to the set of the names in `s`: sorted, no repeats, the same names. */
  function Sorted(s: seq<string>): (r: seq<string>)
    ensures StrictlySorted(r)
    ensures forall c :: c in r <==> c in s
  {
    if s == [] then [] else Insert(s[0], Sorted(s[1..]))
  }

  /** The synonyms of all roles, role by role. */
  function Flatten(groups: seq<seq<string>>): (r: seq<string>)
    ensures forall c :: c in r <==> exists i, k :: 0 <= i < |groups| && 0 <= k < |groups[i]| && groups[i][k] == c
  {
    if groups == [] then []
    else
      var rest := Flatten(groups[1..]);
      assert forall c :: c in rest <==> exists i, k :: 1 <= i < |groups| && 0 <= k < |groups[i]| && groups[i][k] == c by {
        forall c ensures c in rest <==> exists i, k :: 1 <= i < |groups| && 0 <= k < |groups[i]| && groups[i][k] == c {
          if c in rest {
            var i, k :| 0 <= i < |groups[1..]| && 0 <= k < |groups[1..][i]| && groups[1..][i][k] == c;
            assert groups[i + 1][k] == c;
          }
          if exists i, k :: 1 <= i < |groups| && 0 <= k < |groups[i]| && groups[i][k] == c {
            var i, k :| 1 <= i < |groups| && 0 <= k < |groups[i]| && groups[i][k] == c;
            assert groups[1..][i - 1][k] == c;
          }
        }
      }
      groups[0] + rest
  }

  /** Every synonym of every role: the `known_columns` set of the error path. */
  function KnownColumns(): set<string>
  {
    var all := PRIOR_Q_COLUMN_CANDIDATES + PRIOR_T_COLUMN_CANDIDATES;
    set i, k | 0 <= i < |all| && 0 <= k < |all[i]| :: all[i][k]
  }

  /** The entries of `names`, in order, that are not columns. */
  function Absent(names: seq<string>, columns: set<string>): (r: seq<string>)
    ensures forall c :: c in r <==> c in names && c !in columns
  {
    if names == [] then []
    else (if names[0] in columns then [] else [names[0]]) + Absent(names[1..], columns)
  }

  /** `sorted(known_columns - column_names)`: the known synonyms that are not columns, sorted, each once. */
  function MissingColumns(columns: set<string>): (r: seq<string>)
    ensures forall c :: c in r <==> c in KnownColumns() && c !in columns
    ensures StrictlySorted(r)
  {
    var all := PRIOR_Q_COLUMN_CANDIDATES + PRIOR_T_COLUMN_CANDIDATES;
    assert forall c :: c in Flatten(all) <==> c in KnownColumns();
    Sorted(Absent(Flatten(all), columns))
  }

  // ---------------------------------------------------------------- resolution

  /**
   * `_get_image_prior_spec` on an uncached connection whose `images` table has the columns
   * `columns` and which has a `pose_priors` table exactly when `posePriorsExists`.
   */
  function Resolve(columns: set<string>, posePriorsExists: bool): Result<PriorSpec, SchemaError>
  {
    var q := Selected(PRIOR_Q_COLUMN_CANDIDATES, columns);
    var t := Selected(PRIOR_T_COLUMN_CANDIDATES, columns);
    if |q| == 4 && |t| == 3 then Ok(Inline(q, t))
    else if posePriorsExists then Ok(PosePriors)
    else Err(UnexpectedSchema(MissingColumns(columns)))
  }

  /** Every orientation and position role has a present synonym. */
  ghost predicate InlineAvailable(columns: set<string>)
  {
    AllPresent(PRIOR_Q_COLUMN_CANDIDATES, columns) && AllPresent(PRIOR_T_COLUMN_CANDIDATES, columns)
  }

  /** The synonym a role resolves to: its older name when that is a column, else its newer one. */
  function Preferred(group: seq<string>, columns: set<string>): string
    requires |group| == 2
  {
    if group[0] in columns then group[0] else group[1]
  }

  lemma FirstPresentOfPair(group: seq<string>, columns: set<string>)
    requires |group| == 2 && Present(group, columns)
    ensures FirstPresent(group, columns) == Some(Preferred(group, columns))
  {
    if group[0] !in columns {
      assert group[1..] == [group[1]];
      assert group[1..][1..] == [];
    }
  }

  /**
   * The layout is inline exactly when all seven roles resolve; then it carries, role by role,
   * the preferred synonym (old and new names may be mixed), whether or not `pose_priors` exists.
   */
  lemma ResolveInline(columns: set<string>, posePriorsExists: bool)
    ensures Resolve(columns, posePriorsExists).Ok? && Resolve(columns, posePriorsExists).value.Inline?
            <==> InlineAvailable(columns)
    ensures InlineAvailable(columns) ==>
              var r := Resolve(columns, posePriorsExists);
              && r.Ok? && |r.value.qColumns| == 4 && |r.value.tColumns| == 3
              && (forall i :: 0 <= i < 4 ==> r.value.qColumns[i] == Preferred(PRIOR_Q_COLUMN_CANDIDATES[i], columns))
              && (forall i :: 0 <= i < 3 ==> r.value.tColumns[i] == Preferred(PRIOR_T_COLUMN_CANDIDATES[i], columns))
  {
    SelectedAllRoles(PRIOR_Q_COLUMN_CANDIDATES, columns);
    SelectedAllRoles(PRIOR_T_COLUMN_CANDIDATES, columns);
    if InlineAvailable(columns) {
      forall i | 0 <= i < 4
        ensures FirstPresent(PRIOR_Q_COLUMN_CANDIDATES[i], columns) == Some(Preferred(PRIOR_Q_COLUMN_CANDIDATES[i], columns))
      {
        FirstPresentOfPair(PRIOR_Q_COLUMN_CANDIDATES[i], columns);
      }
      forall i | 0 <= i < 3
        ensures FirstPresent(PRIOR_T_COLUMN_CANDIDATES[i], columns) == Some(Preferred(PRIOR_T_COLUMN_CANDIDATES[i], columns))
      {
        FirstPresentOfPair(PRIOR_T_COLUMN_CANDIDATES[i], columns);
      }
    }
  }

  /** Without the inline columns the separate table is used when it exists, and otherwise the error lists every absent synonym, sorted. */
  lemma ResolveFallback(columns: set<string>, posePriorsExists: bool)
    requires !InlineAvailable(columns)
    ensures posePriorsExists ==> Resolve(columns, posePriorsExists) == Ok(PosePriors)
    ensures !posePriorsExists ==>
              var r := Resolve(columns, posePriorsExists);
              && r.Err?
              && (forall c :: c in r.error.absent <==> c in KnownColumns() && c !in columns)
              && StrictlySorted(r.error.absent)
  {
    ResolveInline(columns, posePriorsExists);
  }

  /** The column `update_image` always sets besides the pose. */
  const CAMERA_ID_COLUMN: string := "camera_id"

  /**
   * The inline columns are seven different columns of `images`, none of them `camera_id`, so
   * the UPDATE built from them assigns each column once.
   */
  lemma InlineColumnsDistinct(columns: set<string>, posePriorsExists: bool)
    requires Resolve(columns, posePriorsExists).Ok? && Resolve(columns, posePriorsExists).value.Inline?
    ensures var spec := Resolve(columns, posePriorsExists).value;
            && |spec.qColumns + spec.tColumns| == 7
            && Distinct(spec.qColumns + spec.tColumns + [CAMERA_ID_COLUMN])
            && (forall c :: c in spec.qColumns + spec.tColumns ==> c in columns)
  {
    ResolveInline(columns, posePriorsExists);
    var spec := Resolve(columns, posePriorsExists).value;
    PreferredChoices(columns);
    PriorNamesDistinct(spec.qColumns[0], spec.qColumns[1], spec.qColumns[2], spec.qColumns[3],
                       spec.tColumns[0], spec.tColumns[1], spec.tColumns[2]);
    assert spec.qColumns + spec.tColumns + [CAMERA_ID_COLUMN] ==
           [spec.qColumns[0], spec.qColumns[1], spec.qColumns[2], spec.qColumns[3],
            spec.tColumns[0], spec.tColumns[1], spec.tColumns[2], CAMERA_ID_COLUMN];
  }

  /** The synonym each role resolves to is one of its two names. */
  lemma PreferredChoices(columns: set<string>)
    ensures Preferred(PRIOR_Q_COLUMN_CANDIDATES[0], columns) in {"prior_qw", "qvec_prior_w"}
    ensures Preferred(PRIOR_Q_COLUMN_CANDIDATES[1], columns) in {"prior_qx", "qvec_prior_x"}
    ensures Preferred(PRIOR_Q_COLUMN_CANDIDATES[2], columns) in {"prior_qy", "qvec_prior_y"}
    ensures Preferred(PRIOR_Q_COLUMN_CANDIDATES[3], columns) in {"prior_qz", "qvec_prior_z"}
    ensures Preferred(PRIOR_T_COLUMN_CANDIDATES[0], columns) in {"prior_tx", "tvec_prior_x"}
    ensures Preferred(PRIOR_T_COLUMN_CANDIDATES[1], columns) in {"prior_ty", "tvec_prior_y"}
    ensures Preferred(PRIOR_T_COLUMN_CANDIDATES[2], columns) in {"prior_tz", "tvec_prior_z"}
  {
  }

  /** One synonym per role, plus `camera_id`: eight different names. */
  lemma PriorNamesDistinct(qw: string, qx: string, qy: string, qz: string, tx: string, ty: string, tz: string)
    requires qw in {"prior_qw", "qvec_prior_w"} && qx in {"prior_qx", "qvec_prior_x"}
    requires qy in {"prior_qy", "qvec_prior_y"} && qz in {"prior_qz", "qvec_prior_z"}
    requires tx in {"prior_tx", "tvec_prior_x"} && ty in {"prior_ty", "tvec_prior_y"}
    requires tz in {"prior_tz", "tvec_prior_z"}
    ensures Distinct([qw, qx, qy, qz, tx, ty, tz, CAMERA_ID_COLUMN])
  {
  }

  // ---------------------------------------------------------------- the layouts of the tests

  /** The inline layout is available exactly when each role has one of its two names among the columns. */
  lemma InlineAvailableByName(columns: set<string>)
    ensures InlineAvailable(columns) <==>
              && ("prior_qw" in columns || "qvec_prior_w" in columns)
              && ("prior_qx" in columns || "qvec_prior_x" in columns)
              && ("prior_qy" in columns || "qvec_prior_y" in columns)
              && ("prior_qz" in columns || "qvec_prior_z" in columns)
              && ("prior_tx" in columns || "tvec_prior_x" in columns)
              && ("prior_ty" in columns || "tvec_prior_y" in columns)
              && ("prior_tz" in columns || "tvec_prior_z" in columns)
  {
    var q, t := PRIOR_Q_COLUMN_CANDIDATES, PRIOR_T_COLUMN_CANDIDATES;
    forall i | 0 <= i < 4 ensures Present(q[i], columns) <==> q[i][0] in columns || q[i][1] in columns {
      assert |q[i]| == 2;
    }
    forall i | 0 <= i < 3 ensures Present(t[i], columns) <==> t[i][0] in columns || t[i][1] in columns {
      assert |t[i]| == 2;
    }
    assert q[0] == ["prior_qw", "qvec_prior_w"] && q[1] == ["prior_qx", "qvec_prior_x"];
    assert q[2] == ["prior_qy", "qvec_prior_y"] && q[3] == ["prior_qz", "qvec_prior_z"];
    assert t[0] == ["prior_tx", "tvec_prior_x"] && t[1] == ["prior_ty", "tvec_prior_y"];
    assert t[2] == ["prior_tz", "tvec_prior_z"];
  }

  /**
   * A table with every newer name and none of the older ones (the first test's table) resolves
   * inline to the newer names, whether or not `pose_priors` exists.
   */
  lemma ModernLayoutResolvesInline(columns: set<string>, posePriorsExists: bool)
    requires "qvec_prior_w" in columns && "qvec_prior_x" in columns && "qvec_prior_y" in columns && "qvec_prior_z" in columns
    requires "tvec_prior_x" in columns && "tvec_prior_y" in columns && "tvec_prior_z" in columns
    requires "prior_qw" !in columns && "prior_qx" !in columns && "prior_qy" !in columns && "prior_qz" !in columns
    requires "prior_tx" !in columns && "prior_ty" !in columns && "prior_tz" !in columns
    ensures Resolve(columns, posePriorsExists) == Ok(Inline(
              ["qvec_prior_w", "qvec_prior_x", "qvec_prior_y", "qvec_prior_z"],
              ["tvec_prior_x", "tvec_prior_y", "tvec_prior_z"]))
  {
    InlineAvailableByName(columns);
    ResolveInline(columns, posePriorsExists);
    PreferredByName(columns);
    var spec := Resolve(columns, posePriorsExists).value;
    assert spec.qColumns == [spec.qColumns[0], spec.qColumns[1], spec.qColumns[2], spec.qColumns[3]];
    assert spec.tColumns == [spec.tColumns[0], spec.tColumns[1], spec.tColumns[2]];
  }

  /** A table with every older name (this repository's own DDL) resolves inline to the older names, whatever else it has. */
  lemma LegacyLayoutResolvesInline(columns: set<string>, posePriorsExists: bool)
    requires "prior_qw" in columns && "prior_qx" in columns && "prior_qy" in columns && "prior_qz" in columns
    requires "prior_tx" in columns && "prior_ty" in columns && "prior_tz" in columns
    ensures Resolve(columns, posePriorsExists) == Ok(Inline(
              ["prior_qw", "prior_qx", "prior_qy", "prior_qz"],
              ["prior_tx", "prior_ty", "prior_tz"]))
  {
    InlineAvailableByName(columns);
    ResolveInline(columns, posePriorsExists);
    PreferredByName(columns);
    var spec := Resolve(columns, posePriorsExists).value;
    assert spec.qColumns == [spec.qColumns[0], spec.qColumns[1], spec.qColumns[2], spec.qColumns[3]];
    assert spec.tColumns == [spec.tColumns[0], spec.tColumns[1], spec.tColumns[2]];
  }

  lemma PreferredByName(columns: set<string>)
    ensures Preferred(PRIOR_Q_COLUMN_CANDIDATES[0], columns) == if "prior_qw" in columns then "prior_qw" else "qvec_prior_w"
    ensures Preferred(PRIOR_Q_COLUMN_CANDIDATES[1], columns) == if "prior_qx" in columns then "prior_qx" else "qvec_prior_x"
    ensures Preferred(PRIOR_Q_COLUMN_CANDIDATES[2], columns) == if "prior_qy" in columns then "prior_qy" else "qvec_prior_y"
    ensures Preferred(PRIOR_Q_COLUMN_CANDIDATES[3], columns) == if "prior_qz" in columns then "prior_qz" else "qvec_prior_z"
    ensures Preferred(PRIOR_T_COLUMN_CANDIDATES[0], columns) == if "prior_tx" in columns then "prior_tx" else "tvec_prior_x"
    ensures Preferred(PRIOR_T_COLUMN_CANDIDATES[1], columns) == if "prior_ty" in columns then "prior_ty" else "tvec_prior_y"
    ensures Preferred(PRIOR_T_COLUMN_CANDIDATES[2], columns) == if "prior_tz" in columns then "prior_tz" else "tvec_prior_z"
  {
  }

  /** The fourteen synonyms, written out. */
  const SYNONYMS: set<string> := {
    "prior_qw", "prior_qx", "prior_qy", "prior_qz", "prior_tx", "prior_ty", "prior_tz",
    "qvec_prior_w", "qvec_prior_x", "qvec_prior_y", "qvec_prior_z",
    "tvec_prior_x", "tvec_prior_y", "tvec_prior_z"}

  lemma KnownColumnsByName()
    ensures KnownColumns() == SYNONYMS
  {
    var all := PRIOR_Q_COLUMN_CANDIDATES + PRIOR_T_COLUMN_CANDIDATES;
    assert all == [["prior_qw", "qvec_prior_w"], ["prior_qx", "qvec_prior_x"], ["prior_qy", "qvec_prior_y"],
                   ["prior_qz", "qvec_prior_z"], ["prior_tx", "tvec_prior_x"], ["prior_ty", "tvec_prior_y"],
                   ["prior_tz", "tvec_prior_z"]];
    forall i, k | 0 <= i < |all| && 0 <= k < |all[i]| ensures all[i][k] in KnownColumns() {
    }
    assert all[0][0] in KnownColumns() && all[0][1] in KnownColumns();
    assert all[1][0] in KnownColumns() && all[1][1] in KnownColumns();
    assert all[2][0] in KnownColumns() && all[2][1] in KnownColumns();
    assert all[3][0] in KnownColumns() && all[3][1] in KnownColumns();
    assert all[4][0] in KnownColumns() && all[4][1] in KnownColumns();
    assert all[5][0] in KnownColumns() && all[5][1] in KnownColumns();
    assert all[6][0] in KnownColumns() && all[6][1] in KnownColumns();
    forall c | c in KnownColumns() ensures c in SYNONYMS {
      var i, k :| 0 <= i < |all| && 0 <= k < |all[i]| && all[i][k] == c;
      assert all[i] in all;
    }
  }

  /**
   * A table with none of the fourteen synonyms (the second test's table) uses the separate table
   * when it exists; otherwise all fourteen are reported.
   */
  lemma BareLayout(columns: set<string>, posePriorsExists: bool)
    requires forall c :: c in KnownColumns() ==> c !in columns
    ensures posePriorsExists ==> Resolve(columns, posePriorsExists) == Ok(PosePriors)
    ensures !posePriorsExists ==>
              && Resolve(columns, posePriorsExists).Err?
              && (forall c :: c in Resolve(columns, posePriorsExists).error.absent <==> c in KnownColumns())
  {
    KnownColumnsByName();
    InlineAvailableByName(columns);
    ResolveFallback(columns, posePriorsExists);
  }

  /**
   * A table with the older names but without `prior_tz`, and without `pose_priors`, fails; the
   * report names `prior_tz` and the unused newer synonyms such as `qvec_prior_w`, but not `prior_qw`.
   */
  lemma PartialLegacyLayoutFails(columns: set<string>)
    requires "prior_qw" in columns
    requires "prior_tz" !in columns && "tvec_prior_z" !in columns && "qvec_prior_w" !in columns
    ensures var r := Resolve(columns, false);
            && r.Err?
            && "prior_tz" in r.error.absent
            && "qvec_prior_w" in r.error.absent
            && "prior_qw" !in r.error.absent
  {
    InlineAvailableByName(columns);
    ResolveFallback(columns, false);
    KnownColumnsByName();
  }
}
