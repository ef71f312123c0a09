/**
 * The per-record logic of the profile database migrations: moving the
 * single icon fields into the icon list, replacing random profile IDs by
 * IDs derived from the fingerprints, and the search that decides whether
 * the network rating system starts enabled.
 *
 * The database is not modelled. A pass gets the records of its query as a
 * sequence, in iteration order; `None` stands for a record that cannot be
 * parsed into a profile. What `Put` would answer for each record is an
 * input too (`putErrs[i]` is the error the save of record `i` returns, if
 * any). Each pass returns the profiles it hands to `Put`, in order, and the
 * error it returns.
 */
module Migrations {
  import opened Wrappers
  import Uuid

  datatype Icon = Icon(kind: string, value: string)

  /** The profile fields the migrations read and write. */
  datatype Profile = Profile(id: string, icon: string, iconType: string, icons: seq<Icon>, fingerprints: seq<string>)

  /** Counters of a pass: saves attempted, saves failed, and the last save error. */
  datatype Tally = Tally(total: nat, failed: nat, lastErr: Option<string>)

  /** The error a pass returns: how many saves failed out of how many were attempted, wrapping the last error. */
  datatype MigrationError = MigrationError(failed: nat, total: nat, last: string)

  /** The tally after one more save with the given outcome. */
  function CountSave(t: Tally, putErr: Option<string>): (r: Tally)
  {
    if putErr.Some? then Tally(t.total + 1, t.failed + 1, putErr) else Tally(t.total + 1, t.failed, t.lastErr)
  }

  /** The result of a pass: an error with the counters when a save error was recorded, and none otherwise. */
  function PassResult(t: Tally): (r: Option<MigrationError>)
  {
    if t.lastErr.Some? then Some(MigrationError(t.failed, t.total, t.lastErr.value)) else None
  }

  /** The counters are consistent: failures are counted saves, and there is a last error iff something failed. */
  predicate Consistent(t: Tally)
  {
    t.failed <= t.total && (t.lastErr.Some? <==> t.failed > 0)
  }

  lemma CountSaveConsistent(t: Tally, putErr: Option<string>)
    requires Consistent(t)
    ensures Consistent(CountSave(t, putErr))
    ensures CountSave(t, putErr).lastErr == if putErr.Some? then putErr else t.lastErr
  {
  }

  // ---------------------------------------------------------------- icons

  /** A profile with both single icon fields set and an empty icon list is migrated; all others are skipped. */
  predicate NeedsIconMigration(p: Profile)
  {
    p.icon != "" && p.iconType != "" && |p.icons| == 0
  }

  /** The icon list becomes the one icon the single fields describe; nothing else changes. */
  function MigrateIcon(p: Profile): (q: Profile)
    requires NeedsIconMigration(p)
    ensures q.icons == [Icon(p.iconType, p.icon)]
    ensures q.(icons := p.icons) == p
    ensures !NeedsIconMigration(q)
  {
    p.(icons := [Icon(p.iconType, p.icon)])
  }

  /** The saves and the tally of the icon pass over `records`. */
  function IconPass(records: seq<Option<Profile>>, putErrs: seq<Option<string>>): (r: (seq<Profile>, Tally))
    requires |putErrs| == |records|
    decreases |records|
  {
    if records == [] then ([], Tally(0, 0, None))
    else
      var n := |records| - 1;
      var (saves, t) := IconPass(records[..n], putErrs[..n]);
      if records[n].Some? && NeedsIconMigration(records[n].value) then
        (saves + [MigrateIcon(records[n].value)], CountSave(t, putErrs[n]))
      else (saves, t)
  }

  /**
   * migrateIcons over the records of its query (`None` when the query
   * could not be started, which ends the pass without an error).
   */
  method MigrateIcons(query: Option<seq<Option<Profile>>>, putErrs: seq<Option<string>>)
    returns (saves: seq<Profile>, result: Option<MigrationError>)
    requires query.Some? ==> |putErrs| == |query.value|
    ensures query.None? ==> saves == [] && result == None
    ensures query.Some? ==> saves == IconPass(query.value, putErrs).0
    ensures query.Some? ==> result == PassResult(IconPass(query.value, putErrs).1)
  {
    if query.None? {
      return [], None;
    }
    var records := query.value;
    var lastErr: Option<string> := None;
    var failed := 0;
    var total := 0;
    saves := [];
    var i := 0;
    while i < |records|
      invariant 0 <= i <= |records|
      invariant (saves, Tally(total, failed, lastErr)) == IconPass(records[..i], putErrs[..i])
    {
      assert records[..i + 1][..i] == records[..i] && putErrs[..i + 1][..i] == putErrs[..i];
      var r := records[i];
      if r.Some? {
        var profile := r.value;
        if NeedsIconMigration(profile) {
          profile := profile.(icons := [Icon(profile.iconType, profile.icon)]);
          saves := saves + [profile];
          var err := putErrs[i];
          if err.Some? {
            failed := failed + 1;
            lastErr := err;
          }
          total := total + 1;
        }
      }
      i := i + 1;
    }
    assert records[..i] == records && putErrs[..i] == putErrs;
    result := PassResult(Tally(total, failed, lastErr));
  }

  /** The profiles the icon pass has to save: the parsed records that need it, in order. */
  function IconsPending(records: seq<Option<Profile>>): (ps: seq<Profile>)
    ensures forall k :: 0 <= k < |ps| ==> NeedsIconMigration(ps[k])
  {
    if records == [] then []
    else
      var n := |records| - 1;
      var r := records[n];
      IconsPending(records[..n]) + if r.Some? && NeedsIconMigration(r.value) then [r.value] else []
  }

  /** How many pending profiles the database refuses to save. */
  function IconFailures(records: seq<Option<Profile>>, putErrs: seq<Option<string>>): (n: nat)
    requires |putErrs| == |records|
    ensures n <= |IconsPending(records)|
  {
    if records == [] then 0
    else
      var k := |records| - 1;
      var r := records[k];
      IconFailures(records[..k], putErrs[..k]) + if r.Some? && NeedsIconMigration(r.value) && putErrs[k].Some? then 1 else 0
  }

  /**
   * The icon pass saves every pending profile, in order, each with its icon
   * list set, and no other; `total` counts the saves, `failed` counts the
   * pending profiles whose save fails, and the counters stay consistent.
   */
  lemma {:induction false} IconPassSaves(records: seq<Option<Profile>>, putErrs: seq<Option<string>>)
    requires |putErrs| == |records|
    ensures var (saves, t) := IconPass(records, putErrs);
      && |saves| == |IconsPending(records)| == t.total
      && (forall k :: 0 <= k < |saves| ==> saves[k] == MigrateIcon(IconsPending(records)[k]))
      && t.failed == IconFailures(records, putErrs)
      && Consistent(t)
  {
    if records != [] {
      var n := |records| - 1;
      IconPassSaves(records[..n], putErrs[..n]);
      var (saves, t) := IconPass(records[..n], putErrs[..n]);
      CountSaveConsistent(t, putErrs[n]);
    }
  }

  /** Whether record `i` reaches a save in the icon pass. */
  predicate IconSaved(records: seq<Option<Profile>>, i: int)
    requires 0 <= i < |records|
  {
    records[i].Some? && NeedsIconMigration(records[i].value)
  }

  /**
   * The icon pass reports exactly the failures of its saves: it fails iff a
   * save failed, and then with the error of the last failed save.
   */
  lemma {:induction false} IconPassError(records: seq<Option<Profile>>, putErrs: seq<Option<string>>)
    requires |putErrs| == |records|
    ensures var t := IconPass(records, putErrs).1;
      && (t.lastErr.Some? <==> exists i :: 0 <= i < |records| && IconSaved(records, i) && putErrs[i].Some?)
      && (t.lastErr.Some? ==>
            exists i :: (0 <= i < |records| && IconSaved(records, i) && putErrs[i] == t.lastErr
              && forall j :: i < j < |records| && IconSaved(records, j) ==> putErrs[j].None?))
  {
    if records != [] {
      var n := |records| - 1;
      var pre, preErrs := records[..n], putErrs[..n];
      IconPassError(pre, preErrs);
      assert forall i :: 0 <= i < n ==> pre[i] == records[i] && preErrs[i] == putErrs[i];
      var t := IconPass(records, putErrs).1;
      if !(IconSaved(records, n) && putErrs[n].Some?) {
        if t.lastErr.Some? {
          var i :| 0 <= i < n && IconSaved(pre, i) && preErrs[i] == t.lastErr
            && forall j :: i < j < n && IconSaved(pre, j) ==> preErrs[j].None?;
          assert IconSaved(records, i);
        }
      }
    }
  }

  /**
   * What migrateIcons returns, in terms of its records: an error iff some
   * save failed, counting the failed saves out of all pending profiles and
   * carrying the error of the last failed save.
   */
  lemma IconPassResult(records: seq<Option<Profile>>, putErrs: seq<Option<string>>)
    requires |putErrs| == |records|
    ensures var r := PassResult(IconPass(records, putErrs).1);
      && (r.Some? <==> exists i :: 0 <= i < |records| && IconSaved(records, i) && putErrs[i].Some?)
      && (r.Some? ==> r.value.failed == IconFailures(records, putErrs) && r.value.total == |IconsPending(records)|)
      && (r.Some? ==>
            exists i :: (0 <= i < |records| && IconSaved(records, i) && putErrs[i] == Some(r.value.last)
              && forall j :: i < j < |records| && IconSaved(records, j) ==> putErrs[j].None?))
  {
    IconPassSaves(records, putErrs);
    IconPassError(records, putErrs);
  }

  /** The records after an icon pass: each profile whose save succeeded is replaced by its migrated form. */
  function AfterIconPass(records: seq<Option<Profile>>, putErrs: seq<Option<string>>): (after: seq<Option<Profile>>)
    requires |putErrs| == |records|
    ensures |after| == |records|
  {
    if records == [] then []
    else
      var n := |records| - 1;
      var r := records[n];
      AfterIconPass(records[..n], putErrs[..n]) +
        if r.Some? && NeedsIconMigration(r.value) && putErrs[n].None? then [Some(MigrateIcon(r.value))] else [r]
  }

  /**
   * Running the icon migration again retries exactly the failed saves: a
   * second pass over the records the first one left behind attempts as many
   * saves as the first one saw fail. In particular a pass without failures
   * leaves nothing for the next one.
   */
  lemma {:induction false} IconRetry(records: seq<Option<Profile>>, putErrs: seq<Option<string>>, again: seq<Option<string>>)
    requires |putErrs| == |records| && |again| == |records|
    ensures IconPass(AfterIconPass(records, putErrs), again).1.total == IconPass(records, putErrs).1.failed
  {
    if records != [] {
      var n := |records| - 1;
      var after := AfterIconPass(records, putErrs);
      IconRetry(records[..n], putErrs[..n], again[..n]);
      assert after[..n] == AfterIconPass(records[..n], putErrs[..n]);
    }
  }

  // ---------------------------------------------------------------- derived profile IDs

  /**
   * A profile gets a new ID when its ID looks like a random UUID and differs
   * from the ID derived from its fingerprints.
   */
  predicate NeedsDerivedID(p: Profile, derive: seq<string> -> string)
  {
    Uuid.IsRandomUUID(p.id) && p.id != derive(p.fingerprints)
  }

  /** The profile under its derived ID; nothing else changes, and it needs no further migration. */
  function WithDerivedID(p: Profile, derive: seq<string> -> string): (q: Profile)
    ensures q.id == derive(p.fingerprints)
    ensures q.(id := p.id) == p
    ensures !NeedsDerivedID(q, derive)
  {
    p.(id := derive(p.fingerprints))
  }

  /** The state of the derived-ID pass: saves attempted, old scoped IDs to delete, and the counters. */
  datatype IDPassState = IDPassState(saves: seq<Profile>, toDelete: seq<string>, tally: Tally)

  /** The derived-ID pass over `records`; `scopedID` gives the scoped ID of a profile before its ID changes. */
  function IDPass(records: seq<Option<Profile>>, putErrs: seq<Option<string>>,
                  derive: seq<string> -> string, scopedID: Profile -> string): (s: IDPassState)
    requires |putErrs| == |records|
    decreases |records|
  {
    if records == [] then IDPassState([], [], Tally(0, 0, None))
    else
      var n := |records| - 1;
      var s := IDPass(records[..n], putErrs[..n], derive, scopedID);
      var r := records[n];
      if r.Some? && NeedsDerivedID(r.value, derive) then
        var p := r.value;
        IDPassState(
          s.saves + [WithDerivedID(p, derive)],
          if putErrs[n].None? then s.toDelete + [scopedID(p)] else s.toDelete,
          CountSave(s.tally, putErrs[n]))
      else s
  }

  /**
   * migrateToDerivedIDs: the migration loop, then one delete per collected
   * old scoped ID under `profilesPath`. A failed delete is only logged, so
   * the delete outcomes are not an input and do not change the result.
   */
  method MigrateToDerivedIDs(query: Option<seq<Option<Profile>>>, putErrs: seq<Option<string>>,
                             derive: seq<string> -> string, scopedID: Profile -> string, profilesPath: string)
    returns (saves: seq<Profile>, deletes: seq<string>, result: Option<MigrationError>)
    requires query.Some? ==> |putErrs| == |query.value|
    ensures query.None? ==> saves == [] && deletes == [] && result == None
    ensures query.Some? ==>
      var s := IDPass(query.value, putErrs, derive, scopedID);
      && saves == s.saves
      && |deletes| == |s.toDelete|
      && (forall k :: 0 <= k < |deletes| ==> deletes[k] == profilesPath + s.toDelete[k])
      && result == PassResult(s.tally)
  {
    if query.None? {
      return [], [], None;
    }
    var records := query.value;
    var profilesToDelete: seq<string> := [];
    var lastErr: Option<string> := None;
    var failed := 0;
    var total := 0;
    saves := [];
    var i := 0;
    while i < |records|
      invariant 0 <= i <= |records|
      invariant IDPassState(saves, profilesToDelete, Tally(total, failed, lastErr)) ==
        IDPass(records[..i], putErrs[..i], derive, scopedID)
    {
      assert records[..i + 1][..i] == records[..i] && putErrs[..i + 1][..i] == putErrs[..i];
      var r := records[i];
      if r.Some? && Uuid.IsRandomUUID(r.value.id) {
        var profile := r.value;
        var oldScopedID := scopedID(profile);
        var newID := derive(profile.fingerprints);
        if profile.id != newID {
          profile := profile.(id := newID);
          saves := saves + [profile];
          var err := putErrs[i];
          if err.Some? {
            failed := failed + 1;
            lastErr := err;
          } else {
            profilesToDelete := profilesToDelete + [oldScopedID];
          }
          total := total + 1;
        }
      }
      i := i + 1;
    }
    assert records[..i] == records && putErrs[..i] == putErrs;
    deletes := DeleteKeys(profilesPath, profilesToDelete);
    result := PassResult(Tally(total, failed, lastErr));
  }

  /** The database keys deleted for the old scoped IDs, in order. */
  method DeleteKeys(profilesPath: string, scopedIDs: seq<string>) returns (deletes: seq<string>)
    ensures |deletes| == |scopedIDs|
    ensures forall k :: 0 <= k < |deletes| ==> deletes[k] == profilesPath + scopedIDs[k]
  {
    deletes := [];
    var j := 0;
    while j < |scopedIDs|
      invariant 0 <= j <= |scopedIDs|
      invariant |deletes| == j
      invariant forall k :: 0 <= k < j ==> deletes[k] == profilesPath + scopedIDs[k]
    {
      deletes := deletes + [profilesPath + scopedIDs[j]];
      j := j + 1;
    }
  }

  /** The profiles the derived-ID pass has to save: the parsed records that need a new ID, in order. */
  function IDsPending(records: seq<Option<Profile>>, derive: seq<string> -> string): (ps: seq<Profile>)
    ensures forall k :: 0 <= k < |ps| ==> NeedsDerivedID(ps[k], derive)
  {
    if records == [] then []
    else
      var n := |records| - 1;
      var r := records[n];
      IDsPending(records[..n], derive) + if r.Some? && NeedsDerivedID(r.value, derive) then [r.value] else []
  }

  /**
   * The derived-ID pass saves every pending profile under its derived ID, in
   * order, and no other; one old scoped ID is queued for deletion per
   * successful save, so the delete list has `total - failed` entries.
   */
  lemma {:induction false} IDPassSaves(records: seq<Option<Profile>>, putErrs: seq<Option<string>>,
                                        derive: seq<string> -> string, scopedID: Profile -> string)
    requires |putErrs| == |records|
    ensures var s := IDPass(records, putErrs, derive, scopedID);
      && |s.saves| == |IDsPending(records, derive)| == s.tally.total
      && (forall k :: 0 <= k < |s.saves| ==> s.saves[k] == WithDerivedID(IDsPending(records, derive)[k], derive))
      && Consistent(s.tally)
      && |s.toDelete| == s.tally.total - s.tally.failed
  {
    if records != [] {
      var n := |records| - 1;
      IDPassSaves(records[..n], putErrs[..n], derive, scopedID);
      var s := IDPass(records[..n], putErrs[..n], derive, scopedID);
      CountSaveConsistent(s.tally, putErrs[n]);
    }
  }

  /** Whether record `i` reaches a save in the derived-ID pass. */
  predicate IDSaved(records: seq<Option<Profile>>, derive: seq<string> -> string, i: int)
    requires 0 <= i < |records|
  {
    records[i].Some? && NeedsDerivedID(records[i].value, derive)
  }

  /** The derived-ID pass fails iff some save failed. */
  lemma {:induction false} IDPassError(records: seq<Option<Profile>>, putErrs: seq<Option<string>>,
                                        derive: seq<string> -> string, scopedID: Profile -> string)
    requires |putErrs| == |records|
    ensures IDPass(records, putErrs, derive, scopedID).tally.lastErr.Some? <==>
      exists i :: 0 <= i < |records| && IDSaved(records, derive, i) && putErrs[i].Some?
  {
    if records != [] {
      var n := |records| - 1;
      var pre, preErrs := records[..n], putErrs[..n];
      IDPassError(pre, preErrs, derive, scopedID);
      assert forall i :: 0 <= i < n ==> pre[i] == records[i] && preErrs[i] == putErrs[i];
    }
  }

  /** The error of a failed derived-ID pass is the error of its last failed save. */
  lemma {:induction false} IDPassLastError(records: seq<Option<Profile>>, putErrs: seq<Option<string>>,
                                            derive: seq<string> -> string, scopedID: Profile -> string)
    requires |putErrs| == |records|
    ensures var t := IDPass(records, putErrs, derive, scopedID).tally;
      t.lastErr.Some? ==>
        exists i :: (0 <= i < |records| && IDSaved(records, derive, i) && putErrs[i] == t.lastErr
          && forall j :: i < j < |records| && IDSaved(records, derive, j) ==> putErrs[j].None?)
  {
    if records != [] {
      var n := |records| - 1;
      var pre, preErrs := records[..n], putErrs[..n];
      IDPassLastError(pre, preErrs, derive, scopedID);
      IDPassTally(records, putErrs, derive, scopedID);
      var t := IDPass(records, putErrs, derive, scopedID).tally;
      var t0 := IDPass(pre, preErrs, derive, scopedID).tally;
      if IDSaved(records, derive, n) && putErrs[n].Some? {
        assert IDSaved(records, derive, n) && putErrs[n] == t.lastErr;
      } else if t.lastErr.Some? {
        assert t == t0 || t == CountSave(t0, putErrs[n]);
        assert t.lastErr == t0.lastErr;
        var i :| 0 <= i < n && IDSaved(pre, derive, i) && preErrs[i] == t0.lastErr
          && forall j :: i < j < n && IDSaved(pre, derive, j) ==> preErrs[j].None?;
        assert pre[i] == records[i] && preErrs[i] == putErrs[i];
        assert IDSaved(records, derive, i);
        forall j | i < j < |records| && IDSaved(records, derive, j) ensures putErrs[j].None? {
          if j < n { assert pre[j] == records[j] && preErrs[j] == putErrs[j]; }
        }
      }
    }
  }

  /** How many pending profiles the database refuses to save under their derived IDs. */
  function IDFailures(records: seq<Option<Profile>>, putErrs: seq<Option<string>>, derive: seq<string> -> string): (n: nat)
    requires |putErrs| == |records|
    ensures n <= |IDsPending(records, derive)|
  {
    if records == [] then 0
    else
      var k := |records| - 1;
      IDFailures(records[..k], putErrs[..k], derive) + if IDSaved(records, derive, k) && putErrs[k].Some? then 1 else 0
  }

  /** `failed` of the derived-ID pass counts the pending profiles whose save failed. */
  lemma {:induction false} IDPassFailures(records: seq<Option<Profile>>, putErrs: seq<Option<string>>,
                                           derive: seq<string> -> string, scopedID: Profile -> string)
    requires |putErrs| == |records|
    ensures IDPass(records, putErrs, derive, scopedID).tally.failed == IDFailures(records, putErrs, derive)
  {
    if records != [] {
      var n := |records| - 1;
      IDPassFailures(records[..n], putErrs[..n], derive, scopedID);
      IDPassTally(records, putErrs, derive, scopedID);
    }
  }

  /**
   * What migrateToDerivedIDs returns, in terms of its records: an error iff
   * some save failed, counting the failed saves out of all pending profiles
   * and carrying the error of the last failed save.
   */
  lemma IDPassResult(records: seq<Option<Profile>>, putErrs: seq<Option<string>>,
                     derive: seq<string> -> string, scopedID: Profile -> string)
    requires |putErrs| == |records|
    ensures var r := PassResult(IDPass(records, putErrs, derive, scopedID).tally);
      && (r.Some? <==> exists i :: 0 <= i < |records| && IDSaved(records, derive, i) && putErrs[i].Some?)
      && (r.Some? ==> r.value.failed == IDFailures(records, putErrs, derive) && r.value.total == |IDsPending(records, derive)|)
      && (r.Some? ==>
            exists i :: (0 <= i < |records| && IDSaved(records, derive, i) && putErrs[i] == Some(r.value.last)
              && forall j :: i < j < |records| && IDSaved(records, derive, j) ==> putErrs[j].None?))
  {
    IDPassSaves(records, putErrs, derive, scopedID);
    IDPassFailures(records, putErrs, derive, scopedID);
    IDPassError(records, putErrs, derive, scopedID);
    IDPassLastError(records, putErrs, derive, scopedID);
  }

  /** One more record changes the counters only if it reaches a save. */
  lemma IDPassTally(records: seq<Option<Profile>>, putErrs: seq<Option<string>>,
                    derive: seq<string> -> string, scopedID: Profile -> string)
    requires |putErrs| == |records| && records != []
    ensures var n := |records| - 1;
      var t := IDPass(records[..n], putErrs[..n], derive, scopedID).tally;
      IDPass(records, putErrs, derive, scopedID).tally == if IDSaved(records, derive, n) then CountSave(t, putErrs[n]) else t
  {
  }

  /** The delete list holds the old scoped IDs of exactly the successful saves, in order. */
  lemma {:induction false} IDPassDeletes(records: seq<Option<Profile>>, putErrs: seq<Option<string>>,
                                          derive: seq<string> -> string, scopedID: Profile -> string)
    requires |putErrs| == |records|
    ensures IDPass(records, putErrs, derive, scopedID).toDelete == DeletedOf(records, putErrs, derive, scopedID)
  {
    if records != [] {
      var n := |records| - 1;
      IDPassDeletes(records[..n], putErrs[..n], derive, scopedID);
    }
  }

  /** The old scoped IDs of the successful saves, in iteration order. */
  function DeletedOf(records: seq<Option<Profile>>, putErrs: seq<Option<string>>,
                     derive: seq<string> -> string, scopedID: Profile -> string): (ids: seq<string>)
    requires |putErrs| == |records|
    ensures |ids| <= |records|
  {
    if records == [] then []
    else
      var n := |records| - 1;
      DeletedOf(records[..n], putErrs[..n], derive, scopedID) +
        if IDSaved(records, derive, n) && putErrs[n].None? then [scopedID(records[n].value)] else []
  }

  /**
   * The records after a derived-ID pass whose deletes all succeed: each
   * profile whose save succeeded is replaced by its copy under the derived ID.
   */
  function AfterIDPass(records: seq<Option<Profile>>, putErrs: seq<Option<string>>,
                       derive: seq<string> -> string): (after: seq<Option<Profile>>)
    requires |putErrs| == |records|
    ensures |after| == |records|
  {
    if records == [] then []
    else
      var n := |records| - 1;
      var r := records[n];
      AfterIDPass(records[..n], putErrs[..n], derive) +
        if r.Some? && NeedsDerivedID(r.value, derive) && putErrs[n].None? then [Some(WithDerivedID(r.value, derive))] else [r]
  }

  /**
   * Running the derived-ID migration again retries exactly the failed saves:
   * a migrated profile already carries its derived ID and is skipped.
   */
  lemma {:induction false} IDRetry(records: seq<Option<Profile>>, putErrs: seq<Option<string>>, again: seq<Option<string>>,
                                   derive: seq<string> -> string, scopedID: Profile -> string)
    requires |putErrs| == |records| && |again| == |records|
    ensures IDPass(AfterIDPass(records, putErrs, derive), again, derive, scopedID).tally.total ==
      IDPass(records, putErrs, derive, scopedID).tally.failed
  {
    if records != [] {
      var n := |records| - 1;
      var after := AfterIDPass(records, putErrs, derive);
      IDRetry(records[..n], putErrs[..n], again[..n], derive, scopedID);
      assert after[..n] == AfterIDPass(records[..n], putErrs[..n], derive);
    }
  }

  // ---------------------------------------------------------------- network rating

  type Byte = x: int | 0 <= x < 0x100

  /** A setting's default value: a `uint8`, or a value of some other type. */
  datatype DefaultValue = Uint8Default(value: Byte) | OtherDefault

  /** Looking up one security-level setting: the option is missing, or it has a default and a current value. */
  datatype SettingLookup = Missing(err: string) | Found(default: DefaultValue, current: int)

  /** Go's conversion to `uint8`: the low eight bits of the two's-complement value. */
  function ToUint8(x: int): (b: Byte)
    ensures 0 <= x < 0x100 ==> b == x
    ensures (x - b) % 0x100 == 0
  {
    x % 0x100
  }

  /** A setting whose `uint8` default differs from its current value. */
  predicate Changed(s: SettingLookup)
  {
    s.Found? && s.default.Uint8Default? && s.default.value != ToUint8(s.current)
  }

  datatype RatingDecision = Aborted(err: string) | Decided(enabled: bool)

  /** The search over the settings in order: stop at the first missing or changed one. */
  function RatingSearch(settings: seq<SettingLookup>): RatingDecision
  {
    if settings == [] then Decided(false)
    else if settings[0].Missing? then Aborted(settings[0].err)
    else if Changed(settings[0]) then Decided(true)
    else RatingSearch(settings[1..])
  }

  /**
   * migrateNetworkRatingSystem: returns the lookup error that aborted the
   * search, if any, and whether the network rating is set to enabled. The
   * outcome of setting it is only logged.
   */
  method MigrateNetworkRating(settings: seq<SettingLookup>) returns (result: Option<string>, enableRating: bool)
    ensures RatingSearch(settings).Aborted? ==> result == Some(RatingSearch(settings).err) && !enableRating
    ensures RatingSearch(settings).Decided? ==> result == None && enableRating == RatingSearch(settings).enabled
  {
    var networkRatingEnabled := false;
    var i := 0;
    while i < |settings|
      invariant 0 <= i <= |settings|
      invariant RatingSearch(settings) == RatingSearch(settings[i..])
    {
      assert settings[i..][1..] == settings[i + 1..];
      var s := settings[i];
      if s.Missing? {
        return Some(s.err), false;
      }
      if s.default.Uint8Default? && s.default.value != ToUint8(s.current) {
        networkRatingEnabled := true;
        break;
      }
      i := i + 1;
    }
    return None, networkRatingEnabled;
  }

  /** Every setting before `i` was found and unchanged. */
  predicate PassedOver(settings: seq<SettingLookup>, i: int)
    requires 0 <= i <= |settings|
  {
    forall j :: 0 <= j < i ==> settings[j].Found? && !Changed(settings[j])
  }

  /**
   * The search decides by the first setting that is missing or changed: it
   * enables the rating iff some setting is changed and every earlier one was
   * found, and aborts with a missing setting's error iff every earlier one
   * was found and unchanged.
   */
  lemma {:induction false} RatingSearchFirst(settings: seq<SettingLookup>)
    ensures RatingSearch(settings) == Decided(true) <==>
      exists i :: 0 <= i < |settings| && Changed(settings[i]) && PassedOver(settings, i)
    ensures forall e :: RatingSearch(settings) == Aborted(e) <==>
      exists i :: 0 <= i < |settings| && settings[i] == Missing(e) && PassedOver(settings, i)
    ensures RatingSearch(settings) == Decided(false) <==> PassedOver(settings, |settings|)
  {
    if settings != [] {
      var rest := settings[1..];
      RatingSearchFirst(rest);
      assert forall i :: 0 <= i < |rest| ==> rest[i] == settings[i + 1];
      if settings[0].Found? && !Changed(settings[0]) {
        forall i | 0 <= i <= |rest| ensures PassedOver(settings, i + 1) <==> PassedOver(rest, i) {
          if PassedOver(rest, i) {
            forall j | 0 <= j < i + 1 ensures settings[j].Found? && !Changed(settings[j]) {
              if j > 0 { assert settings[j] == rest[j - 1]; }
            }
          }
        }
        if RatingSearch(settings) == Decided(true) {
          var i :| 0 <= i < |rest| && Changed(rest[i]) && PassedOver(rest, i);
          assert Changed(settings[i + 1]) && PassedOver(settings, i + 1);
        }
        if exists i :: 0 <= i < |settings| && Changed(settings[i]) && PassedOver(settings, i) {
          var i :| 0 <= i < |settings| && Changed(settings[i]) && PassedOver(settings, i);
          assert i > 0;
          assert Changed(rest[i - 1]) && PassedOver(rest, i - 1);
        }
        forall e ensures RatingSearch(settings) == Aborted(e) <==>
          exists i :: 0 <= i < |settings| && settings[i] == Missing(e) && PassedOver(settings, i)
        {
          if RatingSearch(settings) == Aborted(e) {
            var i :| 0 <= i < |rest| && rest[i] == Missing(e) && PassedOver(rest, i);
            assert settings[i + 1] == Missing(e) && PassedOver(settings, i + 1);
          }
          if exists i :: 0 <= i < |settings| && settings[i] == Missing(e) && PassedOver(settings, i) {
            var i :| 0 <= i < |settings| && settings[i] == Missing(e) && PassedOver(settings, i);
            assert i > 0;
            assert rest[i - 1] == Missing(e) && PassedOver(rest, i - 1);
          }
        }
      } else {
        assert !PassedOver(settings, |settings|);
        if settings[0].Missing? {
          assert PassedOver(settings, 0);
        } else {
          assert Changed(settings[0]) && PassedOver(settings, 0);
        }
      }
    }
  }

  /**
   * When every setting can be looked up, the rating is enabled iff some
   * setting's `uint8` default differs from its current value.
   */
  lemma RatingEnabledIffChanged(settings: seq<SettingLookup>)
    requires forall j :: 0 <= j < |settings| ==> settings[j].Found?
    ensures RatingSearch(settings).Decided?
    ensures RatingSearch(settings).enabled <==> exists i :: 0 <= i < |settings| && Changed(settings[i])
  {
    RatingSearchFirst(settings);
    if exists i :: 0 <= i < |settings| && Changed(settings[i]) {
      var i :| 0 <= i < |settings| && Changed(settings[i]);
      while i > 0 && !PassedOver(settings, i)
        invariant 0 <= i < |settings| && Changed(settings[i])
        decreases i
      {
        var j :| 0 <= j < i && !(settings[j].Found? && !Changed(settings[j]));
        i := j;
      }
    } else {
      assert PassedOver(settings, |settings|);
    }
  }

  /** Settings after the one that decides the search are never looked at. */
  lemma {:induction false} RatingSearchStops(settings: seq<SettingLookup>, later: seq<SettingLookup>)
    requires RatingSearch(settings) != Decided(false)
    ensures RatingSearch(settings + later) == RatingSearch(settings)
  {
    assert settings != [];
    assert (settings + later)[0] == settings[0];
    if settings[0].Found? && !Changed(settings[0]) {
      assert (settings + later)[1..] == settings[1..] + later;
      RatingSearchStops(settings[1..], later);
    }
  }
}
