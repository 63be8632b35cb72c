/** PhotoBox: the ten print layouts, the bounded list of photos filled by the
    camera or by uploads, deletion by index, the gate to the editor, the
    filter settings, the reset, the grid cell of each photo and the
    day.month.year footer date. */
module PhotoBox {
  import opened Options

  /** How a layout arranges its frames. */
  datatype Kind = Strip | Grid(cols: nat, rows: nat) | Collage

  /** One entry of the layout table: display name, canvas size in pixels,
      number of photos, arrangement. */
  datatype Layout = Layout(name: string, width: nat, height: nat, photos: nat, kind: Kind)

  /** The keys of the layout table. */
  datatype LayoutId =
    | Strip3 | Strip4
    | Land2 | Land3 | Land4
    | Port2 | Port3 | Port4
    | CollageId | Square4

  /** The layout table. Each layout takes two to four photos; a grid
      layout has exactly one cell per photo, and the collage (one large and
      two small frames) takes three. */
  function LayoutOf(id: LayoutId): (l: Layout)
    ensures 2 <= l.photos <= 4
    ensures l.kind.Grid? ==> l.kind.cols >= 1 && l.kind.cols * l.kind.rows == l.photos
    ensures l.kind.Collage? ==> l.photos == 3
  {
    match id
    case Strip3 => Layout("Strip 3", 600, 1800, 3, Strip)
    case Strip4 => Layout("Strip 4", 600, 2400, 4, Strip)
    case Land2 => Layout("4R Land 2", 1800, 1200, 2, Grid(2, 1))
    case Land3 => Layout("4R Land 3", 1800, 1200, 3, Grid(3, 1))
    case Land4 => Layout("4R Land 4", 1800, 1200, 4, Grid(2, 2))
    case Port2 => Layout("4R Port 2", 1200, 1800, 2, Grid(1, 2))
    case Port3 => Layout("4R Port 3", 1200, 1800, 3, Grid(1, 3))
    case Port4 => Layout("4R Port 4", 1200, 1800, 4, Grid(2, 2))
    case CollageId => Layout("Collage", 1500, 1500, 3, Collage)
    case Square4 => Layout("Square 4", 1500, 1500, 4, Grid(2, 2))
  }

  /** The key string the page uses for a layout. */
  function LayoutKey(id: LayoutId): string
  {
    match id
    case Strip3 => "strip-3"
    case Strip4 => "strip-4"
    case Land2 => "4r-land-2"
    case Land3 => "4r-land-3"
    case Land4 => "4r-land-4"
    case Port2 => "4r-port-2"
    case Port3 => "4r-port-3"
    case Port4 => "4r-port-4"
    case CollageId => "collage"
    case Square4 => "square-4"
  }

  /** Looks a key up in the layout table. */
  function ParseLayoutKey(key: string): (r: Option<LayoutId>)
    ensures r.Some? ==> LayoutKey(r.value) == key
  {
    if key == "strip-3" then Some(Strip3)
    else if key == "strip-4" then Some(Strip4)
    else if key == "4r-land-2" then Some(Land2)
    else if key == "4r-land-3" then Some(Land3)
    else if key == "4r-land-4" then Some(Land4)
    else if key == "4r-port-2" then Some(Port2)
    else if key == "4r-port-3" then Some(Port3)
    else if key == "4r-port-4" then Some(Port4)
    else if key == "collage" then Some(CollageId)
    else if key == "square-4" then Some(Square4)
    else None
  }

  /** Every layout is found under its own key, so the keys are distinct. */
  lemma LayoutKeysRoundTrip(id: LayoutId)
    ensures ParseLayoutKey(LayoutKey(id)) == Some(id)
  {
  }

  /** The number of photos a layout takes. */
  function Capacity(id: LayoutId): (n: nat)
    ensures 2 <= n <= 4
  {
    LayoutOf(id).photos
  }

  /** The grid cell of photo i: column i % cols, row i / cols. */
  function GridCell(i: nat, cols: nat): (cell: (nat, nat))
    requires cols >= 1
    ensures cell.1 < cols && cell.0 * cols + cell.1 == i
  {
    (i / cols, i % cols)
  }

  /** In a grid layout each photo lands on its own cell inside the grid. */
  lemma GridCellsFit(id: LayoutId, i: nat, j: nat)
    requires LayoutOf(id).kind.Grid? && i < Capacity(id) && j < Capacity(id)
    ensures LayoutOf(id).kind.cols >= 1
    ensures GridCell(i, LayoutOf(id).kind.cols).0 < LayoutOf(id).kind.rows
    ensures GridCell(i, LayoutOf(id).kind.cols).1 < LayoutOf(id).kind.cols
    ensures i != j ==> GridCell(i, LayoutOf(id).kind.cols) != GridCell(j, LayoutOf(id).kind.cols)
  {
    var Grid(cols, rows) := LayoutOf(id).kind;
    var (r, c) := GridCell(i, cols);
    if r >= rows {
      RowTooFar(r, rows, cols);
      assert false;
    }
  }

  lemma RowTooFar(r: nat, rows: nat, cols: nat)
    requires r >= rows
    ensures r * cols >= rows * cols
  {
  }

  /** The position splice starts at on an array of length n: a negative
      index counts from the end and is clamped at 0. */
  function SpliceStart(n: nat, index: int): nat
  {
    if index >= 0 then index else if n + index < 0 then 0 else n + index
  }

  /** JavaScript's Array.prototype.splice(index, 1) on a sequence: the
      element at the start position goes and the later ones move up one
      place; a start past the end removes nothing. */
  function SpliceOne(s: seq<string>, index: int): (r: seq<string>)
    ensures var start := SpliceStart(|s|, index);
      start < |s| ==>
        (|r| == |s| - 1
         && (forall k :: 0 <= k < start ==> r[k] == s[k])
         && (forall k :: start <= k < |r| ==> r[k] == s[k + 1]))
    ensures SpliceStart(|s|, index) >= |s| ==> r == s
  {
    var start := SpliceStart(|s|, index);
    if start < |s| then s[..start] + s[start + 1..] else s
  }

  /** For any index in -|s| .. |s|-1 exactly one photo goes: photo index,
      counted from the end when index is negative; the others stay. */
  lemma SpliceRemovesOnlyIndex(s: seq<string>, index: int)
    requires -|s| <= index < |s|
    ensures var i := if index < 0 then |s| + index else index;
      |SpliceOne(s, index)| == |s| - 1
      && multiset(SpliceOne(s, index)) + multiset{s[i]} == multiset(s)
  {
    var i := if index < 0 then |s| + index else index;
    var r, front, back := SpliceOne(s, index), s[..i], s[i + 1..];
    assert SpliceStart(|s|, index) == i;
    forall k | 0 <= k < |r|
      ensures r[k] == (front + back)[k]
    {
      if k < i {
        assert r[k] == s[k] == front[k];
      } else {
        assert r[k] == s[k + 1] == back[k - i];
      }
    }
    assert r == front + back;
    assert s == front + [s[i]] + back;
  }

  /** Splits at every occurrence of sep, as String.prototype.split does with
      a one-character separator; the result always has at least one part. */
  function Split(s: string, sep: char): (parts: seq<string>)
    ensures |parts| >= 1
    ensures forall k :: 0 <= k < |parts| ==> sep !in parts[k]
    decreases |s|
  {
    if |s| == 0 then [""]
    else if s[0] == sep then [""] + Split(s[1..], sep)
    else
      var rest := Split(s[1..], sep);
      [[s[0]] + rest[0]] + rest[1..]
  }

  /** The parts joined back with sep between them. */
  function Join(parts: seq<string>, sep: char): string
    requires |parts| >= 1
  {
    if |parts| == 1 then parts[0] else parts[0] + [sep] + Join(parts[1..], sep)
  }

  lemma {:induction false} JoinSplit(s: string, sep: char)
    ensures Join(Split(s, sep), sep) == s
    decreases |s|
  {
    if |s| > 0 {
      JoinSplit(s[1..], sep);
      if s[0] != sep {
        var rest := Split(s[1..], sep);
        if |rest| > 1 {
          assert Split(s, sep)[1..] == rest[1..];
        }
      }
    }
  }

  lemma {:induction false} SplitJoin(parts: seq<string>, sep: char)
    requires |parts| >= 1
    requires forall k :: 0 <= k < |parts| ==> sep !in parts[k]
    ensures Split(Join(parts, sep), sep) == parts
    decreases |parts|, |parts[0]|
  {
    var p := parts[0];
    if |p| == 0 {
      if |parts| > 1 {
        SplitJoin(parts[1..], sep);
        assert Join(parts, sep) == [sep] + Join(parts[1..], sep);
        assert Join(parts, sep)[1..] == Join(parts[1..], sep);
        assert parts == [""] + parts[1..];
      }
    } else {
      var shorter := [p[1..]] + parts[1..];
      SplitJoin(shorter, sep);
      assert p == [p[0]] + p[1..];
      if |parts| == 1 {
        assert Join(parts, sep)[1..] == Join(shorter, sep);
      } else {
        assert shorter[1..] == parts[1..];
        assert Join(parts, sep) == [p[0]] + Join(shorter, sep);
        assert Join(parts, sep)[1..] == Join(shorter, sep);
      }
      assert parts == [[p[0]] + shorter[0]] + shorter[1..];
    }
  }

  /** Destructuring takes the part when it exists, and JavaScript prints a
      missing one as "undefined". */
  function Part(parts: seq<string>, i: nat): string
  {
    if i < |parts| then parts[i] else "undefined"
  }

  /** The footer date: no line for an empty date, otherwise the three
      '-'-separated fields in reverse order joined by dots. */
  function FooterDate(date: string): (r: Option<string>)
    ensures r.None? <==> date == ""
  {
    if date == "" then None
    else
      var parts := Split(date, '-');
      Some(Part(parts, 2) + "." + Part(parts, 1) + "." + Part(parts, 0))
  }

  /** A Y-M-D date comes out as D.M.Y. */
  lemma FooterDateReverses(y: string, m: string, d: string)
    requires '-' !in y && '-' !in m && '-' !in d
    ensures FooterDate(y + "-" + m + "-" + d) == Some(d + "." + m + "." + y)
  {
    var parts := [y, m, d];
    assert Join(parts[2..], '-') == d;
    assert Join(parts[1..], '-') == m + "-" + d;
    assert Join(parts, '-') == y + "-" + m + "-" + d;
    SplitJoin(parts, '-');
  }

  /** The three image adjustments of the editor. */
  datatype Filters = Filters(brightness: int, contrast: int, blackwhite: bool)

  const DefaultFilters := Filters(100, 100, false)

  /** Which camera the page asks for. */
  datatype Facing = User | Environment

  /** The global state object of the page. Photos are data URLs; the event
      title and date come from the editor's inputs. */
  class App {
    var step: nat
    var layout: Option<LayoutId>
    var photos: seq<string>
    var facingMode: Facing
    var filters: Filters
    var title: string
    var date: string
    /** Whether the "next" button to the editor is enabled. */
    var nextEnabled: bool

    /** The photo list never holds more than the chosen layout takes, and is
        empty while no layout is chosen. */
    ghost predicate Valid()
      reads this
    {
      1 <= step <= 4
      && (layout.None? ==> photos == [])
      && (layout.Some? ==> |photos| <= Capacity(layout.value))
    }

    /** The page on load; today's date is a parameter. */
    constructor(today: string)
      ensures Valid()
      ensures step == 1 && layout == None && photos == [] && facingMode == User
      ensures filters == DefaultFilters && title == "phome" && date == today && !nextEnabled
    {
      step := 1;
      layout := None;
      photos := [];
      facingMode := User;
      filters := DefaultFilters;
      title := "phome";
      date := today;
      nextEnabled := false;
    }

    /** Choosing a layout drops every photo and moves to the camera step.
        The "next" button is left as it was. */
    method SelectLayout(id: LayoutId)
      requires Valid()
      modifies this`layout, this`photos, this`step
      ensures Valid()
      ensures layout == Some(id) && photos == [] && step == 2
    {
      layout := Some(id);
      photos := [];
      step := 2;
    }

    method SwitchCamera()
      modifies this`facingMode
      ensures facingMode == if old(facingMode) == User then Environment else User
    {
      facingMode := if facingMode == User then Environment else User;
    }

    /** The guard and the append shared by the camera and the upload: a full
        list refuses, otherwise the photo goes at the end and the "next"
        button turns on once the list is complete. With no layout chosen the
        table lookup throws and nothing changes. */
    method AddPhoto(photo: string) returns (added: bool)
      requires Valid()
      modifies this`photos, this`nextEnabled
      ensures Valid()
      ensures added <==> layout.Some? && |old(photos)| < Capacity(layout.value)
      ensures added ==> photos == old(photos) + [photo]
      ensures added ==> nextEnabled == (|photos| == Capacity(layout.value) || old(nextEnabled))
      ensures !added ==> photos == old(photos) && nextEnabled == old(nextEnabled)
    {
      if layout.None? {
        return false;
      }
      var cap := Capacity(layout.value);
      if |photos| >= cap {
        return false;
      }
      photos := photos + [photo];
      if |photos| == cap {
        nextEnabled := true;
      }
      return true;
    }

    /** A frame from the camera, as a data URL. */
    method CapturePhoto(frame: string) returns (added: bool)
      requires Valid()
      modifies this`photos, this`nextEnabled
      ensures Valid()
      ensures added <==> layout.Some? && |old(photos)| < Capacity(layout.value)
      ensures added ==> photos == old(photos) + [frame]
      ensures added ==> nextEnabled == (|photos| == Capacity(layout.value) || old(nextEnabled))
      ensures !added ==> photos == old(photos) && nextEnabled == old(nextEnabled)
    {
      added := AddPhoto(frame);
    }

    /** The first chosen file, read as a data URL; no file, nothing happens. */
    method UploadPhoto(file: Option<string>) returns (added: bool)
      requires Valid()
      modifies this`photos, this`nextEnabled
      ensures Valid()
      ensures added <==> file.Some? && layout.Some? && |old(photos)| < Capacity(layout.value)
      ensures added ==> photos == old(photos) + [file.value]
      ensures added ==> nextEnabled == (|photos| == Capacity(layout.value) || old(nextEnabled))
      ensures !added ==> photos == old(photos) && nextEnabled == old(nextEnabled)
    {
      if file.None? {
        return false;
      }
      added := AddPhoto(file.value);
    }

    /** Removes the photo at index, then turns "next" off exactly when the
        list is short of the layout's count. */
    method DeletePhoto(index: int)
      requires Valid()
      modifies this`photos, this`nextEnabled
      ensures Valid()
      ensures photos == SpliceOne(old(photos), index)
      ensures layout.Some? ==> nextEnabled == (|photos| >= Capacity(layout.value))
      ensures layout.None? ==> nextEnabled == old(nextEnabled)
    {
      photos := SpliceOne(photos, index);
      if layout.Some? {
        nextEnabled := !(|photos| < Capacity(layout.value));
      }
    }

    /** The editor opens only with a complete list; opening it reads the
        title and date inputs. */
    method GoToEditor(titleInput: string, dateInput: string) returns (entered: bool)
      requires Valid()
      modifies this`step, this`title, this`date
      ensures Valid()
      ensures entered <==> layout.Some? && |photos| >= Capacity(layout.value)
      ensures entered ==> step == 3 && title == titleInput && date == dateInput
      ensures entered ==> |photos| == Capacity(layout.value)
      ensures !entered ==> step == old(step) && title == old(title) && date == old(date)
    {
      if layout.None? || |photos| < Capacity(layout.value) {
        return false;
      }
      step := 3;
      UpdatePreview(titleInput, dateInput);
      return true;
    }

    /** Reads the title and date inputs before drawing the preview. */
    method UpdatePreview(titleInput: string, dateInput: string)
      modifies this`title, this`date
      ensures title == titleInput && date == dateInput
    {
      title := titleInput;
      date := dateInput;
    }

    /** The slider and checkbox values become the filters; the preview is
        then redrawn, which reads the title and date inputs again. */
    method ApplyFilters(brightness: int, contrast: int, blackwhite: bool, titleInput: string, dateInput: string)
      modifies this`filters, this`title, this`date
      ensures filters == Filters(brightness, contrast, blackwhite)
      ensures title == titleInput && date == dateInput
    {
      filters := Filters(brightness, contrast, blackwhite);
      UpdatePreview(titleInput, dateInput);
    }

    /** The filters return to their defaults and the preview is redrawn,
        reading the title and date inputs again. */
    method ResetFilters(titleInput: string, dateInput: string)
      modifies this`filters, this`title, this`date
      ensures filters == DefaultFilters
      ensures title == titleInput && date == dateInput
    {
      filters := DefaultFilters;
      UpdatePreview(titleInput, dateInput);
    }

    method GoToExport()
      requires Valid()
      modifies this`step
      ensures Valid() && step == 4
    {
      step := 4;
    }

    /** Back to the first step with no layout, no photos, default filters
        and "next" off; the camera side and the event text are kept. */
    method ResetApp()
      modifies this`step, this`layout, this`photos, this`filters, this`nextEnabled
      ensures Valid()
      ensures step == 1 && layout == None && photos == [] && filters == DefaultFilters
      ensures !nextEnabled
    {
      step := 1;
      layout := None;
      photos := [];
      filters := DefaultFilters;
      nextEnabled := false;
    }
  }
}
