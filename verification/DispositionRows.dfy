// What answers go through: one stands for each fingerprint, none is forgotten, and only a claim is ever rewritten.
module DispositionRows {
  import opened Strings
  import opened Findings
  import opened ReviewTables

  predicate SamePlace(a: DispositionRow, b: DispositionRow) {
    a.projectId == b.projectId && a.fingerprint == b.fingerprint
  }

  /** At most one answer stands for each project and fingerprint. */
  ghost predicate Unique(rows: seq<DispositionRow>) {
    forall i, j :: 0 <= i < j < |rows| && SamePlace(rows[i], rows[j]) ==> rows[i].revoked || rows[j].revoked
  }

  /** What may become of a row: nothing once revoked; else it may be revoked, and a `fixed` claim confirmed. */
  predicate RowEvolves(a: DispositionRow, b: DispositionRow) {
    && b == a.(disposition := b.disposition, revoked := b.revoked)
    && (b.disposition == a.disposition || (a.disposition.Fixed? && b.disposition.ConfirmedFixed?))
    && (a.revoked ==> b == a)
  }

  ghost predicate Evolves(before: seq<DispositionRow>, after: seq<DispositionRow>) {
    |before| <= |after| && forall k :: 0 <= k < |before| ==> RowEvolves(before[k], after[k])
  }

  lemma EvolvesTransitive(a: seq<DispositionRow>, b: seq<DispositionRow>, c: seq<DispositionRow>)
    requires Evolves(a, b) && Evolves(b, c)
    ensures Evolves(a, c)
  {
    forall k | 0 <= k < |a|
      ensures RowEvolves(a[k], c[k])
    {
      assert RowEvolves(a[k], b[k]) && RowEvolves(b[k], c[k]);
    }
  }

  lemma RevokedHolds(rows: seq<DispositionRow>, projectId: nat, fingerprints: set<string>)
    ensures Evolves(rows, Revoked(rows, projectId, fingerprints))
    ensures Unique(rows) ==> Unique(Revoked(rows, projectId, fingerprints))
  {
  }

  /** A new answer revokes what stood and is the one that stands. */
  lemma AnsweredHolds(rows: seq<DispositionRow>, row: DispositionRow)
    requires Unique(rows) && !row.revoked
    ensures Unique(Answered(rows, row)) && Evolves(rows, Answered(rows, row))
    ensures StandingRow(Answered(rows, row), row.projectId, row.fingerprint) == Some(row)
  {
    RevokedHolds(rows, row.projectId, {row.fingerprint});
  }

  /** With one answer standing for each fingerprint, a claim is the only answer its confirmation touches. */
  lemma ConfirmedHolds(rows: seq<DispositionRow>, projectId: nat, confirmed: set<string>)
    requires Unique(rows) && confirmed <= Claimed(rows, projectId)
    ensures Unique(Confirmed(rows, projectId, confirmed)) && Evolves(rows, Confirmed(rows, projectId, confirmed))
  {
    var after := Confirmed(rows, projectId, confirmed);
    forall k | 0 <= k < |rows|
      ensures RowEvolves(rows[k], after[k])
    {
      if StandsAmong(rows[k], projectId, confirmed) {
        StandsAlone(rows, projectId, rows[k].fingerprint, k);
      }
    }
  }

  lemma StandsAlone(rows: seq<DispositionRow>, projectId: nat, fingerprint: string, k: nat)
    requires Unique(rows) && fingerprint in Claimed(rows, projectId)
    requires k < |rows| && Stands(rows[k], projectId, fingerprint)
    ensures rows[k].disposition.Fixed?
  {
    var row :| row in rows && row.projectId == projectId && row.disposition.Fixed? && !row.revoked
               && row.fingerprint == fingerprint;
    var j :| 0 <= j < |rows| && rows[j] == row;
    assert SamePlace(rows[k], rows[j]);
  }

  // --- settling ---

  /** Whether confirming rewrites claims only. */
  predicate OnlyClaimsChange(before: seq<DispositionRow>, after: seq<DispositionRow>) {
    && |after| == |before|
    && forall k | 0 <= k < |before| && after[k].disposition != before[k].disposition :: before[k].disposition.Fixed?
  }

  /** No other answer stands beside a standing claim. */
  predicate ClaimsStandAlone(rows: seq<DispositionRow>, projectId: nat) {
    forall k :: 0 <= k < |rows| && rows[k].projectId == projectId && !rows[k].revoked
                && rows[k].fingerprint in Claimed(rows, projectId)
      ==> rows[k].disposition.Fixed? || rows[k].disposition.ConfirmedFixed?
  }

  /** Confirming updates every standing row of a fingerprint, so it leaves dismissals alone exactly when none stands
      beside a claim; one answer standing for each fingerprint is what guarantees that. */
  lemma OnlyClaimsChangeIff(rows: seq<DispositionRow>, projectId: nat)
    ensures ClaimsStandAlone(rows, projectId) <==>
      (forall confirmed | confirmed <= Claimed(rows, projectId) :: OnlyClaimsChange(rows, Confirmed(rows, projectId, confirmed)))
    ensures Unique(rows) ==> ClaimsStandAlone(rows, projectId)
  {
    if k :| 0 <= k < |rows| && rows[k].projectId == projectId && !rows[k].revoked
            && rows[k].fingerprint in Claimed(rows, projectId)
            && !rows[k].disposition.Fixed? && !rows[k].disposition.ConfirmedFixed?
    {
      var one := {rows[k].fingerprint};
      assert Confirmed(rows, projectId, one)[k].disposition.ConfirmedFixed?;
      assert one <= Claimed(rows, projectId) && !OnlyClaimsChange(rows, Confirmed(rows, projectId, one));
    }
    if Unique(rows) {
      forall k | 0 <= k < |rows| && rows[k].projectId == projectId && !rows[k].revoked
                 && rows[k].fingerprint in Claimed(rows, projectId)
        ensures rows[k].disposition.Fixed?
      {
        StandsAlone(rows, projectId, rows[k].fingerprint, k);
      }
    }
  }

  /** Were a dismissal to stand beside a claim, the next review would turn it into a confirmation. */
  lemma UnprotectedDismissal(projectId: nat, fingerprint: string)
    ensures var dismissed := DispositionRow(projectId, fingerprint, Dismissed, "argued", 1, "day", false);
      var claim := DispositionRow(projectId, fingerprint, Fixed, "", 1, "day", false);
      var rows := [dismissed, claim];
      && !Unique(rows) && Claimed(rows, projectId) == {fingerprint}
      && Confirmed(rows, projectId, Claimed(rows, projectId))[0] == dismissed.(disposition := ConfirmedFixed)
  {
    var dismissed := DispositionRow(projectId, fingerprint, Dismissed, "argued", 1, "day", false);
    var claim := DispositionRow(projectId, fingerprint, Fixed, "", 1, "day", false);
    var rows := [dismissed, claim];
    assert SamePlace(rows[0], rows[1]);
    assert rows[1] in rows;
    assert Claimed(rows, projectId) == {fingerprint};
  }
}
