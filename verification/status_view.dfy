/**
 * How a draft status is shown: its badge variant (the same switch appears
 * in the drafts list and the draft editor) and its label, which replaces
 * the first underscore with a space.
 */
module StatusView {
  import opened Text
  import opened Entities

  /** The badge variant of a status string; anything unrecognised is `secondary`. */
  function BadgeVariant(status: string): (v: string)
    ensures v == "outline" <==> status == "scheduled"
    ensures v == "default" <==> status == "editing" || status == "caption_ready" || status == "posted"
    ensures v == "secondary" <==> !(status in ["editing", "caption_ready", "posted", "scheduled"])
  {
    match status
    case "draft" => "secondary"
    case "editing" => "default"
    case "caption_ready" => "default"
    case "scheduled" => "outline"
    case "posted" => "default"
    case _ => "secondary"
  }

  /** `status.replace('_', ' ')`. */
  function Label(status: string): string {
    ReplaceFirst(status, "_", " ")
  }

  /** The label replaces exactly the first underscore and keeps everything around it. */
  lemma LabelReplacesFirst(status: string, k: nat)
    requires k < |status| && status[k] == '_' && '_' !in status[..k]
    ensures Label(status) == status[..k] + " " + status[k + 1..]
  {
    assert OccursAt(status, "_", k) by {
      assert status[k..k + 1] == [status[k]];
    }
    forall j | 0 <= j < k ensures !OccursAt(status, "_", j) {
      assert status[..k][j] == status[j];
      assert status[j..j + 1] == [status[j]];
    }
    ReplaceFirstAt(status, "_", " ", k);
  }

  /** A status without an underscore is shown as it is. */
  lemma LabelWithoutUnderscore(status: string)
    requires '_' !in status
    ensures Label(status) == status
  {
    forall j | 0 <= j < |status| ensures !OccursAt(status, "_", j) {
      assert status[j..j + 1] == [status[j]];
    }
    ReplaceFirstAbsent(status, "_", " ");
  }

  /** Of the stored statuses only `caption_ready` changes: it reads `caption ready`. */
  lemma StatusLabels(s: DraftStatus)
    ensures Label(StatusName(s)) == if s == CaptionReady then "caption ready" else StatusName(s)
  {
    if s == CaptionReady {
      CaptionReadyLabel();
    } else {
      LabelWithoutUnderscore(StatusName(s));
    }
  }

  /** `caption_ready` reads `caption ready`. */
  lemma CaptionReadyLabel()
    ensures Label("caption_ready") == "caption ready"
  {
    var t := "caption_ready";
    LabelReplacesFirst(t, 7);
    assert t[..7] == "caption" && t[8..] == "ready";
  }

  /** Two different statuses have different labels. */
  lemma LabelsDistinct(a: DraftStatus, b: DraftStatus)
    requires a != b
    ensures Label(StatusName(a)) != Label(StatusName(b))
  {
    StatusLabels(a);
    StatusLabels(b);
    if a != CaptionReady && b != CaptionReady && Label(StatusName(a)) == Label(StatusName(b)) {
      StatusNameInjective(a, b);
    }
  }
}
