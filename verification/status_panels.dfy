/**
  The status section and its three panels (hideAllStatus, showLoading,
  showError and showSuccess toggle their display flags).
 */
module StatusPanels {

  datatype Panel = Loading | Error | Success

  /** Whether the outer status section and each panel are displayed. */
  datatype StatusView = StatusView(section: bool, loading: bool, error: bool, success: bool)

  /** The panels currently displayed. */
  function Visible(v: StatusView): set<Panel>
  {
    (if v.loading then {Loading} else {}) + (if v.error then {Error} else {}) + (if v.success then {Success} else {})
  }

  /** Nothing of the status area is on screen. */
  predicate Hidden(v: StatusView)
  {
    !v.section && Visible(v) == {}
  }

  /** The section is on screen with `p` as its one panel. */
  predicate ShowsOnly(v: StatusView, p: Panel)
  {
    v.section && Visible(v) == {p}
  }

  /** What every transition keeps: either nothing is shown, or the section with exactly one panel. */
  predicate WellFormed(v: StatusView)
  {
    Hidden(v) || ShowsOnly(v, Loading) || ShowsOnly(v, Error) || ShowsOnly(v, Success)
  }

  /** hideAllStatus: every flag off, whatever was shown before. */
  function HideAll(v: StatusView): (r: StatusView)
    ensures Hidden(r)
  {
    v.(section := false, loading := false, error := false, success := false)
  }

  /** The show* helpers: hide everything, then reveal the section and the one panel. */
  function Show(v: StatusView, p: Panel): (r: StatusView)
    ensures ShowsOnly(r, p)
  {
    var h := HideAll(v);
    match p
    case Loading => h.(section := true, loading := true)
    case Error => h.(section := true, error := true)
    case Success => h.(section := true, success := true)
  }

  /** The last panel shown is the only one on screen, whatever was shown before it. */
  lemma LastShownWins(v: StatusView, p: Panel, q: Panel)
    ensures Visible(Show(Show(v, p), q)) == {q}
    ensures Show(Show(v, p), q) == Show(v, q)
  {
  }
}
