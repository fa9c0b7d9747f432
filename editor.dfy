/** The screenshot annotation editor (`src/components/Editor.tsx`): the
    annotation list, its transforms (crop shift, drag move, delete, property
    update), topmost-first selection, the linear undo/redo history and the
    crop-rectangle handles. Coordinates are integers; the float geometry of
    the arrow and pen hit tests is the parameter `near`. */
module Editor {
  import opened Wrappers
  import opened Strings
  import Seqs

  datatype Point = Point(x: int, y: int)

  datatype Shape =
    | Pen(points: seq<Point>)
    | Rect(x: int, y: int, w: int, h: int)
    | Arrow(from: Point, to: Point)
    | Text(x: int, y: int, text: string)

  datatype Annotation = Annotation(id: string, shape: Shape, color: string, size: int)

  /** One undo step: the annotations and the data URL of the background. */
  datatype HistoryState = HistoryState(annotations: seq<Annotation>, imageSrc: string)

  datatype Tool = SelectTool | PenTool | TextTool | RectTool | ArrowTool | CropTool

  datatype CropRect = CropRect(x: int, y: int, w: int, h: int)

  /** Width and height of a decoded image. */
  datatype Size = Size(width: nat, height: nat)

  /** `updateSelectedProperty(key, value)` for the two keys it accepts. */
  datatype Property = ColorProperty(color: string) | SizeProperty(size: int)

  const Tolerance: int := 15
  const MinCropSide: int := 10
  const DefaultColor: string := "#ef4444"
  const DefaultSize: int := 4

  function Min(a: int, b: int): int { if a <= b then a else b }
  function Max(a: int, b: int): int { if a >= b then a else b }
  function Abs(a: int): int { if a >= 0 then a else -a }

  /** A string or id used as a condition: `null` and `''` are falsy. */
  predicate Truthy(s: Option<string>) {
    s.Some? && s.value != []
  }

  // ---------------------------------------------------------------------
  // Annotation transforms

  function MovePoints(ps: seq<Point>, dx: int, dy: int): (r: seq<Point>)
    ensures |r| == |ps|
  {
    seq(|ps|, i requires 0 <= i < |ps| => Point(ps[i].x + dx, ps[i].y + dy))
  }

  /** Moves one annotation by (dx, dy): the branches of the crop shift and of
      the drag move, which agree shape by shape. */
  function Translate(a: Annotation, dx: int, dy: int): (r: Annotation)
    ensures r.id == a.id && r.color == a.color && r.size == a.size
    ensures r.shape.Rect? <==> a.shape.Rect?
    ensures r.shape.Text? <==> a.shape.Text?
    ensures r.shape.Arrow? <==> a.shape.Arrow?
    ensures r.shape.Pen? <==> a.shape.Pen?
    ensures r.shape.Text? ==> r.shape.text == a.shape.text
  {
    match a.shape
    case Rect(x, y, w, h) => a.(shape := Rect(x + dx, y + dy, w, h))
    case Text(x, y, t) => a.(shape := Text(x + dx, y + dy, t))
    case Arrow(f, t) => a.(shape := Arrow(Point(f.x + dx, f.y + dy), Point(t.x + dx, t.y + dy)))
    case Pen(ps) => a.(shape := Pen(MovePoints(ps, dx, dy)))
  }

  lemma {:induction false} TranslateCompose(a: Annotation, dx1: int, dy1: int, dx2: int, dy2: int)
    ensures Translate(Translate(a, dx1, dy1), dx2, dy2) == Translate(a, dx1 + dx2, dy1 + dy2)
  {
    if a.shape.Pen? {
      var ps := a.shape.points;
      assert MovePoints(MovePoints(ps, dx1, dy1), dx2, dy2) == MovePoints(ps, dx1 + dx2, dy1 + dy2);
    }
  }

  lemma {:induction false} TranslateZero(a: Annotation)
    ensures Translate(a, 0, 0) == a
  {
    if a.shape.Pen? {
      assert MovePoints(a.shape.points, 0, 0) == a.shape.points;
    }
  }

  /** `applyCrop`'s shift: every annotation moved by (-cx, -cy). */
  function ShiftAll(anns: seq<Annotation>, cx: int, cy: int): (r: seq<Annotation>)
    ensures |r| == |anns|
    ensures forall i :: 0 <= i < |anns| ==> r[i] == Translate(anns[i], -cx, -cy)
  {
    seq(|anns|, i requires 0 <= i < |anns| => Translate(anns[i], -cx, -cy))
  }

  /** The crop shift keeps count, order, ids, colours, sizes and text, and is
      undone by the opposite shift. */
  lemma {:induction false} ShiftAllKeeps(anns: seq<Annotation>, cx: int, cy: int)
    ensures forall i :: 0 <= i < |anns| ==>
      var r := ShiftAll(anns, cx, cy)[i];
      r.id == anns[i].id && r.color == anns[i].color && r.size == anns[i].size
      && (anns[i].shape.Text? ==> r.shape.Text? && r.shape.text == anns[i].shape.text)
    ensures ShiftAll(ShiftAll(anns, cx, cy), -cx, -cy) == anns
  {
    var r := ShiftAll(ShiftAll(anns, cx, cy), -cx, -cy);
    forall i | 0 <= i < |anns| ensures r[i] == anns[i] {
      TranslateCompose(anns[i], -cx, -cy, cx, cy);
      TranslateZero(anns[i]);
    }
  }

  /** The select-mode drag: only annotations with id `id` move. */
  function MoveSelected(anns: seq<Annotation>, id: string, dx: int, dy: int): (r: seq<Annotation>)
    ensures |r| == |anns|
    ensures forall i :: 0 <= i < |anns| && anns[i].id != id ==> r[i] == anns[i]
    ensures forall i :: 0 <= i < |anns| && anns[i].id == id ==> r[i] == Translate(anns[i], dx, dy)
  {
    seq(|anns|, i requires 0 <= i < |anns| => if anns[i].id == id then Translate(anns[i], dx, dy) else anns[i])
  }

  /** Two successive drag events move the selection as one drag by the sum;
      this is why the handler can reset `dragStart` after each event. */
  lemma {:induction false} MoveSelectedCompose(anns: seq<Annotation>, id: string, dx1: int, dy1: int, dx2: int, dy2: int)
    ensures MoveSelected(MoveSelected(anns, id, dx1, dy1), id, dx2, dy2) == MoveSelected(anns, id, dx1 + dx2, dy1 + dy2)
  {
    var a := MoveSelected(MoveSelected(anns, id, dx1, dy1), id, dx2, dy2);
    var b := MoveSelected(anns, id, dx1 + dx2, dy1 + dy2);
    forall i | 0 <= i < |anns| ensures a[i] == b[i] {
      if anns[i].id == id {
        TranslateCompose(anns[i], dx1, dy1, dx2, dy2);
      }
    }
  }

  function DeleteById(anns: seq<Annotation>, id: string): (r: seq<Annotation>)
    ensures |r| <= |anns|
  {
    Seqs.Filter(anns, (a: Annotation) => a.id != id)
  }

  /** Delete removes exactly the annotations with that id, keeping the others
      in order, and deleting an id that is absent changes nothing. */
  lemma {:induction false} DeleteByIdSpec(anns: seq<Annotation>, id: string)
    ensures forall a :: a in DeleteById(anns, id) <==> a in anns && a.id != id
    ensures (forall i :: 0 <= i < |anns| ==> anns[i].id != id) ==> DeleteById(anns, id) == anns
    ensures DeleteById(DeleteById(anns, id), id) == DeleteById(anns, id)
  {
    var p := (a: Annotation) => a.id != id;
    if forall i :: 0 <= i < |anns| ==> anns[i].id != id {
      Seqs.FilterAll(anns, p);
    }
    var d := DeleteById(anns, id);
    assert forall i :: 0 <= i < |d| ==> d[i] in d;
    Seqs.FilterAll(d, p);
  }

  function WithProperty(a: Annotation, prop: Property): Annotation {
    match prop
    case ColorProperty(c) => a.(color := c)
    case SizeProperty(n) => a.(size := n)
  }

  /** `annotations.map(ann => ann.id === id ? { ...ann, [key]: value } : ann)`. */
  function SetProperty(anns: seq<Annotation>, id: string, prop: Property): (r: seq<Annotation>)
    ensures |r| == |anns|
  {
    seq(|anns|, i requires 0 <= i < |anns| => if anns[i].id == id then WithProperty(anns[i], prop) else anns[i])
  }

  /** A property update changes only that property of the annotations with
      that id, and applying it twice is the same as once. */
  lemma {:induction false} SetPropertySpec(anns: seq<Annotation>, id: string, prop: Property)
    ensures forall i :: 0 <= i < |anns| ==>
      var r := SetProperty(anns, id, prop)[i];
      && r.id == anns[i].id && r.shape == anns[i].shape
      && (anns[i].id != id ==> r == anns[i])
      && (anns[i].id == id && prop.ColorProperty? ==> r.color == prop.color && r.size == anns[i].size)
      && (anns[i].id == id && prop.SizeProperty? ==> r.size == prop.size && r.color == anns[i].color)
    ensures SetProperty(SetProperty(anns, id, prop), id, prop) == SetProperty(anns, id, prop)
  {
    var once := SetProperty(anns, id, prop);
    var twice := SetProperty(once, id, prop);
    forall i | 0 <= i < |anns| ensures twice[i] == once[i] {
      if anns[i].id == id {
        assert once[i] == WithProperty(anns[i], prop);
      }
    }
  }

  /** `annotations.find(a => a.id === id)`: the first annotation with that id. */
  function FindById(anns: seq<Annotation>, id: string): (r: Option<Annotation>)
    ensures r.None? <==> forall i :: 0 <= i < |anns| ==> anns[i].id != id
    ensures r.Some? ==> exists i :: (0 <= i < |anns| && anns[i] == r.value && r.value.id == id
      && forall j :: 0 <= j < i ==> anns[j].id != id)
  {
    if anns == [] then None
    else if anns[0].id == id then Some(anns[0])
    else
      var r := FindById(anns[1..], id);
      if r.Some? then
        var k :| 0 <= k < |anns[1..]| && anns[1..][k] == r.value && r.value.id == id
          && forall j :: 0 <= j < k ==> anns[1..][j].id != id;
        assert anns[k + 1] == r.value;
        r
      else r
  }

  // ---------------------------------------------------------------------
  // Hit testing and selection

  /** `hitTest`: a rectangle drawn from either corner is normalised and
      widened by the tolerance; text covers `size*3` per character to the
      right and `size*4` above the baseline (10 below it); arrows and pen
      strokes hit when `near` holds for one of their segments. */
  function Hits(pos: Point, a: Annotation, near: (Point, Point, Point) -> bool): bool {
    match a.shape
    case Rect(x, y, w, h) =>
      var left := Min(x, x + w);
      var top := Min(y, y + h);
      left - Tolerance <= pos.x <= left + Abs(w) + Tolerance
      && top - Tolerance <= pos.y <= top + Abs(h) + Tolerance
    case Text(x, y, t) =>
      var height := a.size * 4;
      var width := |t| * (a.size * 3);
      x <= pos.x <= x + width && y - height <= pos.y <= y + 10
    case Arrow(f, t) => near(pos, f, t)
    case Pen(ps) => exists i :: 0 <= i < |ps| - 1 && near(pos, ps[i], ps[i + 1])
  }

  /** The rectangle test in terms of its two corners, whichever way round
      they were dragged. */
  lemma RectHitBetweenCorners(pos: Point, a: Annotation, near: (Point, Point, Point) -> bool)
    requires a.shape.Rect?
    ensures var Rect(x, y, w, h) := a.shape;
      Hits(pos, a, near) <==>
        Min(x, x + w) - Tolerance <= pos.x <= Max(x, x + w) + Tolerance
        && Min(y, y + h) - Tolerance <= pos.y <= Max(y, y + h) + Tolerance
  {
  }

  /** The same rectangle drawn from the opposite corner is hit at the same points. */
  lemma RectHitSymmetric(pos: Point, a: Annotation, near: (Point, Point, Point) -> bool)
    requires a.shape.Rect?
    ensures var Rect(x, y, w, h) := a.shape;
      Hits(pos, a, near) == Hits(pos, a.(shape := Rect(x + w, y + h, -w, -h)), near)
  {
  }

  /** `hitTest` as the editor runs it: the pen case scans its segments. */
  method HitTest(pos: Point, a: Annotation, near: (Point, Point, Point) -> bool) returns (hit: bool)
    ensures hit == Hits(pos, a, near)
  {
    if !a.shape.Pen? {
      return Hits(pos, a, near);
    }
    var ps := a.shape.points;
    var i := 0;
    while i < |ps| - 1
      invariant 0 <= i <= Max(|ps| - 1, 0)
      invariant forall j :: 0 <= j < i ==> !near(pos, ps[j], ps[j + 1])
    {
      if near(pos, ps[i], ps[i + 1]) {
        return true;
      }
      i := i + 1;
    }
    return false;
  }

  /** The select tool's scan from the last (topmost) annotation down: the id
      of the topmost annotation under `pos`, or none when nothing is hit. */
  method Topmost(anns: seq<Annotation>, pos: Point, near: (Point, Point, Point) -> bool) returns (found: Option<string>)
    ensures found.None? <==> forall i :: 0 <= i < |anns| ==> !Hits(pos, anns[i], near)
    ensures found.Some? ==> exists i :: (0 <= i < |anns| && Hits(pos, anns[i], near) && anns[i].id == found.value
      && forall j :: i < j < |anns| ==> !Hits(pos, anns[j], near))
  {
    var i := |anns| - 1;
    while i >= 0
      invariant -1 <= i < |anns|
      invariant forall j :: i < j < |anns| ==> !Hits(pos, anns[j], near)
    {
      var hit := HitTest(pos, anns[i], near);
      if hit {
        return Some(anns[i].id);
      }
      i := i - 1;
    }
    return None;
  }

  // ---------------------------------------------------------------------
  // Crop handles

  /** `CropOverlay`'s move handler: a drag of `handle` by (dx, dy) from the
      rectangle at drag start. `'move'` shifts the rectangle; a handle naming
      `w`/`e`/`n`/`s` moves that edge; width and height are then raised to 10. */
  method CropHandleMove(start: CropRect, handle: string, dx: int, dy: int) returns (r: CropRect)
    ensures r.w >= MinCropSide && r.h >= MinCropSide
    ensures handle == "move" ==> r == CropRect(start.x + dx, start.y + dy, Max(start.w, MinCropSide), Max(start.h, MinCropSide))
    ensures handle != "move" ==>
      && r.x == start.x + (if Contains(handle, "w") then dx else 0)
      && r.y == start.y + (if Contains(handle, "n") then dy else 0)
      && r.w == Max(start.w - (if Contains(handle, "w") then dx else 0) + (if Contains(handle, "e") then dx else 0), MinCropSide)
      && r.h == Max(start.h - (if Contains(handle, "n") then dy else 0) + (if Contains(handle, "s") then dy else 0), MinCropSide)
  {
    r := start;
    if handle == "move" {
      r := r.(x := r.x + dx);
      r := r.(y := r.y + dy);
    } else {
      if Contains(handle, "w") {
        r := r.(x := r.x + dx);
        r := r.(w := r.w - dx);
      }
      if Contains(handle, "e") {
        r := r.(w := r.w + dx);
      }
      if Contains(handle, "n") {
        r := r.(y := r.y + dy);
        r := r.(h := r.h - dy);
      }
      if Contains(handle, "s") {
        r := r.(h := r.h + dy);
      }
    }
    if r.w < MinCropSide {
      r := r.(w := MinCropSide);
    }
    if r.h < MinCropSide {
      r := r.(h := MinCropSide);
    }
  }

  /** Dragging a west or north handle keeps the opposite edge in place as
      long as the minimum size does not kick in; an east or south handle
      keeps the near edge. */
  method CropCornerDrag(start: CropRect, dx: int, dy: int) returns (nw: CropRect, se: CropRect)
    ensures start.w - dx >= MinCropSide ==> nw.x + nw.w == start.x + start.w
    ensures start.h - dy >= MinCropSide ==> nw.y + nw.h == start.y + start.h
    ensures se.x == start.x && se.y == start.y
    ensures start.w + dx >= MinCropSide && start.h + dy >= MinCropSide ==>
      se.x + se.w == start.x + start.w + dx && se.y + se.h == start.y + start.h + dy
  {
    ContainsChar("nw", 'n');
    ContainsChar("nw", 'w');
    ContainsChar("nw", 'e');
    ContainsChar("nw", 's');
    ContainsChar("se", 'n');
    ContainsChar("se", 'w');
    ContainsChar("se", 'e');
    ContainsChar("se", 's');
    nw := CropHandleMove(start, "nw", dx, dy);
    se := CropHandleMove(start, "se", dx, dy);
  }

  // ---------------------------------------------------------------------
  // Editor state

  /** The editor once its image has loaded. `decode` gives the size of the
      image behind a data URL; image loads are taken to complete at once. */
  class EditorState {
    const decode: string -> Size
    var history: seq<HistoryState>
    var historyStep: int
    var annotations: seq<Annotation>
    var selectedId: Option<string>
    var bitmapSrc: string
    var cropRect: CropRect
    var activeTool: Tool
    var currentColor: string
    var currentSize: int
    var isDragging: bool
    var dragStart: Option<Point>
    var currentAnnotation: Option<Annotation>

    /** The step points into the history and the image shown is that step's. */
    predicate Valid()
      reads this
    {
      0 <= historyStep < |history| && bitmapSrc == history[historyStep].imageSrc
    }

    function FullRect(src: string): CropRect {
      CropRect(0, 0, decode(src).width, decode(src).height)
    }

    /** The `onInit` load: one history entry with no annotations, the crop
        rectangle covering the image. */
    constructor Init(src: string, decode: string -> Size)
      ensures Valid()
      ensures this.decode == decode
      ensures history == [HistoryState([], src)] && historyStep == 0 && annotations == []
      ensures bitmapSrc == src && cropRect == CropRect(0, 0, decode(src).width, decode(src).height)
      ensures selectedId == None && activeTool == SelectTool
      ensures currentColor == DefaultColor && currentSize == DefaultSize
      ensures !isDragging && dragStart == None && currentAnnotation == None
    {
      this.decode := decode;
      history := [HistoryState([], src)];
      historyStep := 0;
      annotations := [];
      selectedId := None;
      bitmapSrc := src;
      cropRect := CropRect(0, 0, decode(src).width, decode(src).height);
      activeTool := SelectTool;
      currentColor := DefaultColor;
      currentSize := DefaultSize;
      isDragging := false;
      dragStart := None;
      currentAnnotation := None;
    }

    /** `pushHistory`: drops the redo branch, appends the new state and moves
        to it. A new image (a truthy `newImageSrc`) is loaded; otherwise the
        entry keeps the current step's image. */
    method PushHistory(newAnnotations: seq<Annotation>, newImageSrc: Option<string>)
      requires Valid()
      modifies this
      ensures Valid()
      ensures var src := if Truthy(newImageSrc) then newImageSrc.value else old(history[historyStep].imageSrc);
        history == old(history[..historyStep + 1]) + [HistoryState(newAnnotations, src)]
      ensures historyStep == old(historyStep) + 1 && historyStep == |history| - 1
      ensures annotations == newAnnotations
      ensures selectedId == old(selectedId) && cropRect == old(cropRect) && activeTool == old(activeTool)
      ensures currentColor == old(currentColor) && currentSize == old(currentSize)
      ensures isDragging == old(isDragging) && dragStart == old(dragStart) && currentAnnotation == old(currentAnnotation)
    {
      var currentSrc := if Truthy(newImageSrc) then newImageSrc.value else history[historyStep].imageSrc;
      history := history[..historyStep + 1] + [HistoryState(newAnnotations, currentSrc)];
      historyStep := |history| - 1;
      annotations := newAnnotations;
      if Truthy(newImageSrc) {
        bitmapSrc := newImageSrc.value;
      }
    }

    /** `restoreState`: shows the entry's annotations, and reloads the image
        (resetting the crop rectangle to it) only when it differs. */
    method RestoreState(state: HistoryState)
      modifies this
      ensures annotations == state.annotations && bitmapSrc == state.imageSrc
      ensures cropRect == if old(bitmapSrc) == state.imageSrc then old(cropRect) else FullRect(state.imageSrc)
      ensures history == old(history) && historyStep == old(historyStep)
      ensures selectedId == old(selectedId) && activeTool == old(activeTool)
      ensures currentColor == old(currentColor) && currentSize == old(currentSize)
      ensures isDragging == old(isDragging) && dragStart == old(dragStart) && currentAnnotation == old(currentAnnotation)
    {
      annotations := state.annotations;
      if bitmapSrc != state.imageSrc {
        bitmapSrc := state.imageSrc;
        cropRect := FullRect(state.imageSrc);
      }
    }

    /** `handleUndo`: nothing at step 0, otherwise one step back. */
    method Undo()
      requires Valid()
      modifies this
      ensures Valid()
      ensures history == old(history)
      ensures old(historyStep) == 0 ==> historyStep == 0 && annotations == old(annotations) && cropRect == old(cropRect)
      ensures old(historyStep) > 0 ==> historyStep == old(historyStep) - 1 && annotations == history[historyStep].annotations
      ensures old(historyStep) > 0 ==>
        && bitmapSrc == history[historyStep].imageSrc
        && cropRect == if old(bitmapSrc) == history[historyStep].imageSrc then old(cropRect) else FullRect(history[historyStep].imageSrc)
      ensures selectedId == old(selectedId) && activeTool == old(activeTool)
      ensures currentColor == old(currentColor) && currentSize == old(currentSize)
      ensures isDragging == old(isDragging) && dragStart == old(dragStart) && currentAnnotation == old(currentAnnotation)
    {
      if historyStep > 0 {
        historyStep := historyStep - 1;
        RestoreState(history[historyStep]);
      }
    }

    /** `handleRedo`: nothing at the last entry, otherwise one step forward. */
    method Redo()
      requires Valid()
      modifies this
      ensures Valid()
      ensures history == old(history)
      ensures old(historyStep) == |history| - 1 ==> historyStep == old(historyStep) && annotations == old(annotations) && cropRect == old(cropRect)
      ensures old(historyStep) < |history| - 1 ==> historyStep == old(historyStep) + 1 && annotations == history[historyStep].annotations
      ensures old(historyStep) < |history| - 1 ==>
        && bitmapSrc == history[historyStep].imageSrc
        && cropRect == if old(bitmapSrc) == history[historyStep].imageSrc then old(cropRect) else FullRect(history[historyStep].imageSrc)
      ensures selectedId == old(selectedId) && activeTool == old(activeTool)
      ensures currentColor == old(currentColor) && currentSize == old(currentSize)
      ensures isDragging == old(isDragging) && dragStart == old(dragStart) && currentAnnotation == old(currentAnnotation)
    {
      if historyStep < |history| - 1 {
        historyStep := historyStep + 1;
        RestoreState(history[historyStep]);
      }
    }

    /** Undo then redo from a step above 0 comes back to the same step and
        shows that entry's annotations. */
    method UndoThenRedo()
      requires Valid() && historyStep > 0
      modifies this
      ensures Valid()
      ensures history == old(history) && historyStep == old(historyStep)
      ensures annotations == history[historyStep].annotations
    {
      Undo();
      Redo();
    }

    /** After a push there is nothing to redo. */
    method PushThenRedo(newAnnotations: seq<Annotation>)
      requires Valid()
      modifies this
      ensures Valid()
      ensures historyStep == |history| - 1 && annotations == newAnnotations
      ensures history[historyStep] == HistoryState(newAnnotations, old(history[historyStep].imageSrc))
    {
      PushHistory(newAnnotations, None);
      Redo();
    }

    /** A toolbar button. */
    method SetActiveTool(tool: Tool)
      modifies this
      ensures activeTool == tool
      ensures history == old(history) && historyStep == old(historyStep) && annotations == old(annotations)
      ensures bitmapSrc == old(bitmapSrc) && cropRect == old(cropRect) && selectedId == old(selectedId)
      ensures currentColor == old(currentColor) && currentSize == old(currentSize)
      ensures isDragging == old(isDragging) && dragStart == old(dragStart) && currentAnnotation == old(currentAnnotation)
    {
      activeTool := tool;
    }

    /** `handleMouseDown`: starts a drag. The select tool picks the topmost
        annotation under the pointer and takes over the colour and size of
        the first annotation with that id; pen, rectangle and arrow start a
        new annotation with id `newId`. */
    method MouseDown(pos: Point, newId: string, near: (Point, Point, Point) -> bool)
      requires Valid()
      modifies this
      ensures Valid()
      ensures isDragging && dragStart == Some(pos)
      ensures history == old(history) && historyStep == old(historyStep) && annotations == old(annotations)
      ensures bitmapSrc == old(bitmapSrc) && cropRect == old(cropRect) && activeTool == old(activeTool)
      ensures activeTool == SelectTool ==>
        && (selectedId.None? <==> forall i :: 0 <= i < |annotations| ==> !Hits(pos, annotations[i], near))
        && (selectedId.Some? ==> exists i :: (0 <= i < |annotations| && Hits(pos, annotations[i], near)
              && annotations[i].id == selectedId.value && forall j :: i < j < |annotations| ==> !Hits(pos, annotations[j], near)))
        && (Truthy(selectedId) ==> (FindById(annotations, selectedId.value).Some?
              && currentColor == FindById(annotations, selectedId.value).value.color
              && currentSize == FindById(annotations, selectedId.value).value.size))
        && (!Truthy(selectedId) ==> currentColor == old(currentColor) && currentSize == old(currentSize))
        && currentAnnotation == old(currentAnnotation)
      ensures activeTool != SelectTool ==> selectedId == old(selectedId) && currentColor == old(currentColor) && currentSize == old(currentSize)
      ensures activeTool == PenTool ==> currentAnnotation == Some(Annotation(newId, Pen([pos]), currentColor, currentSize))
      ensures activeTool == RectTool ==> currentAnnotation == Some(Annotation(newId, Rect(pos.x, pos.y, 0, 0), currentColor, currentSize))
      ensures activeTool == ArrowTool ==> currentAnnotation == Some(Annotation(newId, Arrow(pos, pos), currentColor, currentSize))
      ensures activeTool in {TextTool, CropTool} ==> currentAnnotation == old(currentAnnotation)
    {
      dragStart := Some(pos);
      isDragging := true;
      match activeTool {
        case SelectTool =>
          var found := Topmost(annotations, pos, near);
          selectedId := found;
          if Truthy(found) {
            var ann := FindById(annotations, found.value);
            if ann.Some? {
              currentColor := ann.value.color;
              currentSize := ann.value.size;
            }
          }
        case PenTool =>
          currentAnnotation := Some(Annotation(newId, Pen([pos]), currentColor, currentSize));
        case RectTool =>
          currentAnnotation := Some(Annotation(newId, Rect(pos.x, pos.y, 0, 0), currentColor, currentSize));
        case ArrowTool =>
          currentAnnotation := Some(Annotation(newId, Arrow(pos, pos), currentColor, currentSize));
        case _ =>
      }
    }

    /** `handleMouseMove`: with the select tool and a selection, moves the
        selected annotations by the pointer's offset from the last event;
        with a drawing tool, grows the annotation being drawn. Nothing is
        pushed to the history. */
    method MouseMove(pos: Point)
      requires Valid()
      modifies this
      ensures Valid()
      ensures history == old(history) && historyStep == old(historyStep)
      ensures bitmapSrc == old(bitmapSrc) && cropRect == old(cropRect) && activeTool == old(activeTool)
      ensures selectedId == old(selectedId) && isDragging == old(isDragging)
      ensures currentColor == old(currentColor) && currentSize == old(currentSize)
      ensures !old(isDragging) || old(dragStart).None? ==>
        annotations == old(annotations) && dragStart == old(dragStart) && currentAnnotation == old(currentAnnotation)
      ensures old(isDragging) && old(dragStart).Some? && activeTool == SelectTool && Truthy(selectedId) ==>
        && annotations == MoveSelected(old(annotations), selectedId.value, pos.x - old(dragStart).value.x, pos.y - old(dragStart).value.y)
        && dragStart == Some(pos) && currentAnnotation == old(currentAnnotation)
      ensures !(activeTool == SelectTool && Truthy(selectedId)) ==> annotations == old(annotations) && dragStart == old(dragStart)
      ensures old(isDragging) && old(dragStart).Some? && activeTool == PenTool && old(currentAnnotation).Some? && old(currentAnnotation).value.shape.Pen? ==>
        var c := old(currentAnnotation).value;
        currentAnnotation == Some(c.(shape := Pen(c.shape.points + [pos])))
      ensures old(isDragging) && old(dragStart).Some? && activeTool == RectTool && old(currentAnnotation).Some? && old(currentAnnotation).value.shape.Rect? ==>
        var c := old(currentAnnotation).value;
        currentAnnotation == Some(c.(shape := Rect(c.shape.x, c.shape.y, pos.x - c.shape.x, pos.y - c.shape.y)))
      ensures old(isDragging) && old(dragStart).Some? && activeTool == ArrowTool && old(currentAnnotation).Some? && old(currentAnnotation).value.shape.Arrow? ==>
        var c := old(currentAnnotation).value;
        currentAnnotation == Some(c.(shape := Arrow(c.shape.from, pos)))
    {
      if !isDragging || dragStart.None? {
        return;
      }
      var start := dragStart.value;
      if activeTool == SelectTool && Truthy(selectedId) {
        annotations := MoveSelected(annotations, selectedId.value, pos.x - start.x, pos.y - start.y);
        dragStart := Some(pos);
      } else if activeTool == PenTool && currentAnnotation.Some? && currentAnnotation.value.shape.Pen? {
        var c := currentAnnotation.value;
        currentAnnotation := Some(c.(shape := Pen(c.shape.points + [pos])));
      } else if activeTool == RectTool && currentAnnotation.Some? && currentAnnotation.value.shape.Rect? {
        var c := currentAnnotation.value;
        currentAnnotation := Some(c.(shape := Rect(c.shape.x, c.shape.y, pos.x - c.shape.x, pos.y - c.shape.y)));
      } else if activeTool == ArrowTool && currentAnnotation.Some? && currentAnnotation.value.shape.Arrow? {
        var c := currentAnnotation.value;
        currentAnnotation := Some(c.(shape := Arrow(c.shape.from, pos)));
      }
    }

    /** `handleMouseUp`: ends the drag and commits the annotation being
        drawn, if any, as a new history entry. */
    method MouseUp()
      requires Valid()
      modifies this
      ensures Valid()
      ensures !isDragging && currentAnnotation == None
      ensures old(currentAnnotation).None? ==>
        history == old(history) && historyStep == old(historyStep) && annotations == old(annotations)
      ensures old(currentAnnotation).Some? ==>
        && annotations == old(annotations) + [old(currentAnnotation).value]
        && history == old(history[..historyStep + 1]) + [HistoryState(annotations, old(history[historyStep].imageSrc))]
        && historyStep == |history| - 1
      ensures bitmapSrc == old(bitmapSrc) && cropRect == old(cropRect) && activeTool == old(activeTool)
      ensures selectedId == old(selectedId) && dragStart == old(dragStart)
      ensures currentColor == old(currentColor) && currentSize == old(currentSize)
    {
      isDragging := false;
      if currentAnnotation.Some? {
        PushHistory(annotations + [currentAnnotation.value], None);
        currentAnnotation := None;
      }
    }

    /** `applyCrop`: shifts every annotation by minus the crop origin, pushes
        exactly one entry carrying the cropped image `newSrc` (the canvas's
        data URL) and returns to the select tool. */
    method ApplyCrop(newSrc: string)
      requires Valid()
      modifies this
      ensures Valid()
      ensures annotations == ShiftAll(old(annotations), old(cropRect).x, old(cropRect).y)
      ensures history == old(history[..historyStep + 1]) + [HistoryState(annotations, if newSrc != [] then newSrc else old(bitmapSrc))]
      ensures historyStep == |history| - 1 && |history| == old(historyStep) + 2
      ensures activeTool == SelectTool
      ensures selectedId == old(selectedId) && cropRect == old(cropRect)
      ensures currentColor == old(currentColor) && currentSize == old(currentSize)
      ensures isDragging == old(isDragging) && dragStart == old(dragStart) && currentAnnotation == old(currentAnnotation)
    {
      var shifted := ShiftAll(annotations, cropRect.x, cropRect.y);
      PushHistory(shifted, Some(newSrc));
      activeTool := SelectTool;
    }

    /** `handleDelete`: with a selection, pushes the list without the
        selected id and clears the selection; otherwise nothing changes. */
    method Delete()
      requires Valid()
      modifies this
      ensures Valid()
      ensures !Truthy(old(selectedId)) ==>
        history == old(history) && historyStep == old(historyStep) && annotations == old(annotations) && selectedId == old(selectedId)
      ensures Truthy(old(selectedId)) ==>
        && annotations == DeleteById(old(annotations), old(selectedId).value)
        && history == old(history[..historyStep + 1]) + [HistoryState(annotations, old(bitmapSrc))]
        && historyStep == |history| - 1
        && selectedId == None
      ensures bitmapSrc == old(bitmapSrc) && cropRect == old(cropRect) && activeTool == old(activeTool)
      ensures currentColor == old(currentColor) && currentSize == old(currentSize)
      ensures isDragging == old(isDragging) && dragStart == old(dragStart) && currentAnnotation == old(currentAnnotation)
    {
      if Truthy(selectedId) {
        PushHistory(DeleteById(annotations, selectedId.value), None);
        selectedId := None;
      }
    }

    /** `updateSelectedProperty`: sets the current colour or size and, with a
        selection, pushes the list with that property changed on it. */
    method UpdateSelectedProperty(prop: Property)
      requires Valid()
      modifies this
      ensures Valid()
      ensures currentColor == (if prop.ColorProperty? then prop.color else old(currentColor))
      ensures currentSize == (if prop.SizeProperty? then prop.size else old(currentSize))
      ensures !Truthy(selectedId) ==>
        history == old(history) && historyStep == old(historyStep) && annotations == old(annotations)
      ensures Truthy(selectedId) ==>
        && annotations == SetProperty(old(annotations), selectedId.value, prop)
        && history == old(history[..historyStep + 1]) + [HistoryState(annotations, old(bitmapSrc))]
        && historyStep == |history| - 1
      ensures selectedId == old(selectedId) && bitmapSrc == old(bitmapSrc) && cropRect == old(cropRect) && activeTool == old(activeTool)
      ensures isDragging == old(isDragging) && dragStart == old(dragStart) && currentAnnotation == old(currentAnnotation)
    {
      match prop {
        case ColorProperty(c) => currentColor := c;
        case SizeProperty(n) => currentSize := n;
      }
      if Truthy(selectedId) {
        PushHistory(SetProperty(annotations, selectedId.value, prop), None);
      }
    }
  }
}
