/** The coloured status badge shown after a status check. */
module StatusBadge {
  import Strings

  /** CSS class for a status: looked up by its lower-cased text, "processing" when unknown. */
  function StatusClass(status: string): string
  {
    var key := Strings.ToLower(status);
    if key == "completed" then "success"
    else if key == "failed" then "failed"
    else "processing"
  }

  /** The badge's label: the status upper-cased. */
  function Label(status: string): string
  {
    Strings.ToUpper(status)
  }

  /** `format_status(status)`: an HTML span carrying the class and the label. */
  function FormatStatus(status: string): string
  {
    "<span class=\"status-badge " + StatusClass(status) + "\">" + Label(status) + "</span>"
  }

  /** The class is one of the three styled ones: "success" exactly for a completed job and
      "failed" exactly for a failed one, whatever the letter case, and "processing" for every
      other status, known or not. */
  lemma StatusClassCases(status: string)
    ensures StatusClass(status) in {"success", "processing", "failed"}
    ensures StatusClass(status) == "success" <==> Strings.ToLower(status) == "completed"
    ensures StatusClass(status) == "failed" <==> Strings.ToLower(status) == "failed"
    ensures StatusClass(status) == "processing" <==>
              Strings.ToLower(status) != "completed" && Strings.ToLower(status) != "failed"
  {
  }

  /** The class ignores letter case: a status and its upper-cased label get the same badge colour. */
  lemma StatusClassIgnoresCase(status: string)
    ensures StatusClass(Label(status)) == StatusClass(status)
  {
    Strings.LowerOfUpper(status);
  }

  /** The label has the status's length, no lower-case letter, and reads as the status once both
      are lower-cased. */
  lemma LabelSpec(status: string)
    ensures |Label(status)| == |status|
    ensures forall i :: 0 <= i < |status| ==> !Strings.IsLowerAscii(Label(status)[i])
    ensures Strings.ToLower(Label(status)) == Strings.ToLower(status)
  {
    Strings.LowerOfUpper(status);
  }

  /** The badge depends on the status only up to letter case. */
  lemma FormatStatusIgnoresCase(status: string)
    ensures FormatStatus(Strings.ToUpper(status)) == FormatStatus(status)
    ensures FormatStatus(Strings.ToLower(status)) == FormatStatus(status)
  {
    Strings.LowerOfUpper(status);
    Strings.UpperOfLower(status);
    var lower := Strings.ToLower(status);
    Strings.LowerOfUpper(lower);
    assert Strings.ToLower(lower) == lower by {
      assert forall i :: 0 <= i < |status| ==> Strings.LowerChar(Strings.LowerChar(status[i])) == Strings.LowerChar(status[i]);
    }
  }
}
