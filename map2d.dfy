/*
 * s2::map2d<T>: a width x height grid stored row-major in one heap array,
 * with copy and move construction and assignment.
 */
module World {

  /** The row-major index of cell (x, y) in a grid of the given width. */
  function Index(width: int, x: int, y: int): int
  {
    y * width + x
  }

  /** Inside a width x height grid the row-major index is a bijection onto
      [0, width * height): in range, and distinct cells have distinct
      indices. */
  lemma {:induction false} IndexInGrid(width: int, height: int, x: int, y: int)
    requires 0 <= x < width && 0 <= y < height
    ensures 0 <= Index(width, x, y) < width * height
  {
    assert y * width <= (height - 1) * width by {
      MulLe(y, height - 1, width);
    }
    assert (height - 1) * width + width == height * width;
  }

  lemma {:induction false} IndexInjective(width: int, height: int, x: int, y: int, x2: int, y2: int)
    requires 0 <= x < width && 0 <= y < height && 0 <= x2 < width && 0 <= y2 < height
    ensures Index(width, x, y) == Index(width, x2, y2) <==> x == x2 && y == y2
  {
    if y < y2 {
      MulLe(y + 1, y2, width);
      assert (y + 1) * width == y * width + width;
    } else if y2 < y {
      MulLe(y2 + 1, y, width);
      assert (y2 + 1) * width == y2 * width + width;
    }
  }

  lemma MulLe(m: int, n: int, w: int)
    requires m <= n && w >= 0
    ensures m * w <= n * w
  {
    assert n * w - m * w == (n - m) * w;
  }

  /** The cell at (x, y) of a row-major cell sequence. */
  function CellAt<T>(cells: seq<T>, width: int, x: int, y: int): T
    requires 0 <= Index(width, x, y) < |cells|
  {
    cells[Index(width, x, y)]
  }

  /** After a set of (x, y), get(x, y) returns the value and every other
      cell of the grid keeps its value. */
  lemma GetAfterSet<T>(cells: seq<T>, width: int, height: int, x: int, y: int, v: T, x2: int, y2: int)
    requires |cells| == width * height && 0 <= x < width && 0 <= y < height
    requires 0 <= x2 < width && 0 <= y2 < height
    ensures (IndexInGrid(width, height, x, y); IndexInGrid(width, height, x2, y2);
             var cells' := cells[Index(width, x, y) := v];
             CellAt(cells', width, x2, y2) == if x2 == x && y2 == y then v else CellAt(cells, width, x2, y2))
  {
    IndexInGrid(width, height, x, y);
    IndexInGrid(width, height, x2, y2);
    IndexInjective(width, height, x, y, x2, y2);
  }

  /** The cell-by-cell loop of the copy assignment: every cell of src
      into the cell of dst at the same index. */
  method CopyCells<T>(src: array<T>, dst: array<T>)
    requires src != dst && src.Length == dst.Length
    modifies dst
    ensures dst[..] == src[..]
  {
    var i := 0;
    while i < dst.Length
      invariant 0 <= i <= dst.Length
      invariant dst[..i] == src[..i]
    {
      dst[i] := src[i];
      i := i + 1;
    }
  }

  class Map2D<T(0)> {
    var data: array?<T>
    var width: int
    var height: int

    /** No data means a 0 x 0 grid; otherwise the array holds exactly
        width * height cells. */
    ghost predicate Valid()
      reads this
    {
      width >= 0 && height >= 0 &&
      (data == null ==> width == 0 && height == 0) &&
      (data != null ==> data.Length == width * height)
    }

    /** The cells, row by row. */
    ghost function Cells(): (cs: seq<T>)
      reads this, data
      requires Valid()
      ensures |cs| == width * height
    {
      if data == null then [] else data[..]
    }

    /** The default map: no data, 0 x 0. */
    constructor ()
      ensures Valid() && data == null && width == 0 && height == 0 && Cells() == []
    {
      data := null;
      width, height := 0, 0;
    }

    /** release(): drop the data and become 0 x 0. */
    method Release()
      modifies this
      ensures Valid() && data == null && width == 0 && height == 0 && Cells() == []
    {
      data := null;
      width, height := 0, 0;
    }

    /** initialize(Width, Height): a fresh array of Width * Height
        default-initialised cells; the old data is not released. */
    method Initialize(w: int, h: int)
      requires w >= 0 && h >= 0
      modifies this
      ensures Valid() && width == w && height == h && fresh(data) && |Cells()| == w * h
    {
      width, height := w, h;
      data := new T[w * h];
    }

    /** get(x, y): the cell at y * width + x. The index is not checked, so
        the caller keeps it inside the array. */
    function Get(x: int, y: int): (r: T)
      reads this, data
      requires Valid() && 0 <= Index(width, x, y) < width * height
      ensures r == CellAt(Cells(), width, x, y)
    {
      data[Index(width, x, y)]
    }

    /** set(x, y, val): writes the cell at y * width + x and nothing else. */
    method Set(x: int, y: int, val: T)
      requires Valid() && 0 <= Index(width, x, y) < width * height
      modifies data
      ensures Valid() && Cells() == old(Cells())[Index(width, x, y) := val]
      ensures Get(x, y) == val
    {
      data[Index(width, x, y)] := val;
    }

    /** operator[](idx) for reading: the same row-major storage, by linear
        index. */
    function At(idx: int): (r: T)
      reads this, data
      requires Valid() && 0 <= idx < width * height
      ensures r == Cells()[idx]
      ensures forall x, y :: 0 <= x < width && 0 <= y < height && Index(width, x, y) == idx ==> r == Get(x, y)
    {
      data[idx]
    }

    /** operator[](idx) for writing through the returned reference. */
    method SetAt(idx: int, val: T)
      requires Valid() && 0 <= idx < width * height
      modifies data
      ensures Valid() && Cells() == old(Cells())[idx := val]
    {
      data[idx] := val;
    }

    function GetWidth(): int
      reads this
    {
      width
    }

    function GetHeight(): int
      reads this
    {
      height
    }

    /** The copy constructor: a fresh grid of the same size holding the
        same cells. */
    constructor Copy(o: Map2D<T>)
      requires o.Valid()
      ensures Valid() && width == o.width && height == o.height && fresh(data)
      ensures Cells() == o.Cells()
    {
      width, height := o.width, o.height;
      data := new T[o.width * o.height];
      new;
      var i := 0;
      while i < width * height
        invariant Valid() && data != null && fresh(data)
        invariant width == o.width && height == o.height
        invariant 0 <= i <= width * height
        invariant data[..i] == o.Cells()[..i]
      {
        data[i] := o.data[i];
        i := i + 1;
      }
    }

    /** Copy assignment as written: release, initialize to o's size, then
        copy o's cells. When o is this map itself, the release has already
        made it 0 x 0, so self-assignment leaves an empty map. */
    method CopyAssign(o: Map2D<T>)
      requires Valid() && o.Valid()
      modifies this
      ensures Valid() && fresh(data)
      ensures o != this ==> width == o.width && height == o.height && Cells() == o.Cells()
      ensures o == this ==> width == 0 && height == 0 && Cells() == []
    {
      Release();
      Initialize(o.width, o.height);
      if width * height > 0 {
        CopyCells(o.data, data);
      }
    }

    /** Copy assignment as intended: assigning a map to itself keeps it,
        and any other map's size and cells are duplicated. */
    method CopyAssignChecked(o: Map2D<T>)
      requires Valid() && o.Valid()
      modifies this
      ensures Valid()
      ensures width == old(o.width) && height == old(o.height) && Cells() == old(o.Cells())
    {
      if o == this {
        return;
      }
      CopyAssign(o);
    }

    /** The move constructor: take o's data and size; o is left 0 x 0 with
        no data. */
    constructor Moved(o: Map2D<T>)
      requires o.Valid()
      modifies o
      ensures Valid() && o.Valid()
      ensures data == old(o.data) && width == old(o.width) && height == old(o.height)
      ensures o.data == null && o.width == 0 && o.height == 0
    {
      data := o.data;
      width, height := o.width, o.height;
      new;
      o.data := null;
      o.width, o.height := 0, 0;
    }

    /** Move assignment: release, take o's data and size, and leave o 0 x 0
        with no data (so a self-move empties the map). */
    method MoveAssign(o: Map2D<T>)
      requires Valid() && o.Valid()
      modifies this, o
      ensures Valid() && o.Valid()
      ensures o != this ==> data == old(o.data) && width == old(o.width) && height == old(o.height)
      ensures o.data == null && o.width == 0 && o.height == 0
    {
      Release();
      data := o.data;
      width, height := o.width, o.height;
      o.data := null;
      o.width, o.height := 0, 0;
    }
  }

  /** A 2 x 2 map assigned to itself as written: it had four cells and is
      left with none. */
  method SelfCopyAssignEmpties() returns (before: int, after: int)
    ensures before == 4 && after == 0
  {
    var m := new Map2D<int>();
    m.Initialize(2, 2);
    before := m.GetWidth() * m.GetHeight();
    m.CopyAssign(m);
    after := m.GetWidth() * m.GetHeight();
  }

  /** The same map assigned to itself with the self-assignment check keeps
      its size and cells. */
  method SelfCopyAssignChecked() returns (before: int, after: int)
    ensures before == 4 && after == 4
  {
    var m := new Map2D<int>();
    m.Initialize(2, 2);
    before := m.GetWidth() * m.GetHeight();
    m.CopyAssignChecked(m);
    after := m.GetWidth() * m.GetHeight();
  }
}
