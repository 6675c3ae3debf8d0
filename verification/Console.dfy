/** vi's idea of where the cursor belongs against where the console driver draws.

    vi counts cells from the top of the screen to dot; redraw() clears the screen and hands the
    text to the console, which draws it character by character and moves its own cursor. */
module Console {

  const COLUMNS: nat := 80
  const ROWS: nat := 24
  /** Cells of the 25-line screen, and of the CGA memory behind it. */
  const CELLS: nat := 2000
  const MEMORY: nat := 16384

  /** A cell holds a character in its low byte and the attribute 0x07 in its high byte. */
  function Cell(c: char): (r: int)
    ensures Printable(c) ==> r % 0x100 == c as int && r / 0x100 == 0x07
  {
    c as int % 256 + 0x700
  }

  /** x | 0x0700: bits 8 to 10 are set. */
  function Lit(x: int): (r: int) {
    x - x / 256 % 8 * 256 + 0x700
  }

  lemma LitCell(c: char)
    ensures Lit(Cell(c)) == Cell(c)
  {}

  predicate Printable(c: char) {
    ' ' <= c <= '~'
  }

  predicate IsText(t: string) {
    forall i :: 0 <= i < |t| ==> Printable(t[i]) || t[i] == '\n' || t[i] == '\t'
  }

  /** The first cell of the next line. */
  function NextLine(pos: nat): (r: nat)
    ensures r % COLUMNS == 0 && pos < r <= pos + COLUMNS
  {
    pos + (COLUMNS - pos % COLUMNS)
  }

  /** Where the next character goes after c at cell pos. */
  function Next(pos: nat, c: char): (r: nat)
    ensures r > pos
  {
    if c == '\n' then NextLine(pos) else if c == '\t' then pos + 4 else pos + 1
  }

  /** The cell of character k when the text starts at cell 0. */
  function Count(t: string, k: nat): (r: nat)
    requires k <= |t|
    decreases |t| + k
  {
    if k == 0 then 0 else Next(Count(t, k - 1), t[k - 1])
  }

  /** vi's way to the next line: a cell for the newline, then round up unless already there. */
  lemma ViNewline(cnt: nat)
    ensures NextLine(cnt) == if (cnt + 1) % COLUMNS != 0 then (cnt + 1) / COLUMNS * COLUMNS + COLUMNS else cnt + 1
  {}

  /** countCursorPosFromScreenBegin2Dot() with screenbegin at or before dot. */
  method CountToDot(t: string, dot: nat) returns (cnt: nat)
    requires dot <= |t| && IsText(t)
    ensures cnt == Count(t, dot)
  {
    cnt := 0;
    var p := 0;
    while p < dot
      invariant p <= dot && cnt == Count(t, p)
    {
      if ' ' <= t[p] <= '~' {
        cnt := cnt + 1;
      } else if t[p] == '\t' {
        cnt := cnt + 4;
      } else if t[p] == '\n' {
        ViNewline(cnt);
        cnt := cnt + 1;
        if cnt % COLUMNS != 0 {
          cnt := cnt / COLUMNS * COLUMNS + COLUMNS;
        }
      }
      p := p + 1;
    }
  }

  lemma {:induction false} CountGrows(t: string, i: nat, j: nat)
    requires i <= j <= |t|
    ensures Count(t, i) + (j - i) <= Count(t, j)
    decreases j
  {
    if i < j {
      CountGrows(t, i, j - 1);
    }
  }

  /** copyFromTextToScreen() stops after k characters. */
  predicate StopsAt(t: string, k: nat)
    requires k <= |t|
  {
    || k == |t|
    || (k > 0 && (Count(t, k) == CELLS - 1 || (Count(t, k) >= ROWS * COLUMNS && t[k] == '\n')))
  }

  /** How many characters are drawn, if nothing goes past the last cell. */
  function Drawn(t: string, k: nat): (m: nat)
    requires k <= |t|
    ensures k <= m <= |t| && StopsAt(t, m)
    ensures forall i :: k <= i < m ==> !StopsAt(t, i)
    decreases |t| - k
  {
    if StopsAt(t, k) then k else Drawn(t, k + 1)
  }

  /** No tab among the first k characters starts in the last four cells. */
  ghost predicate TabsFitTo(t: string, k: nat)
    requires k <= |t|
  {
    forall i :: 0 <= i < k && t[i] == '\t' ==> Count(t, i) + 4 < CELLS
  }

  /** No tab that is drawn starts in the last four cells. */
  ghost predicate TabsFit(t: string) {
    TabsFitTo(t, Drawn(t, 0))
  }

  /** A dot within vi's 24 lines is drawn. */
  lemma DotIsDrawn(t: string, dot: nat)
    requires dot < |t| && Count(t, dot) < ROWS * COLUMNS
    ensures dot < Drawn(t, 0)
  {}

  /** While tabs fit, a drawn character leaves the cursor on the screen. */
  lemma StaysOn(t: string, k: nat)
    requires k < |t| && !StopsAt(t, k) && Count(t, k) < CELLS
    ensures t[k] != '\t' ==> Count(t, k + 1) < CELLS
    ensures t[k] == '\t' ==> (Count(t, k + 1) < CELLS <==> Count(t, k) + 4 < CELLS)
  {}

  /** The screen shows the first k characters where vi counts them. */
  ghost predicate Shows(cells: seq<int>, t: string, k: nat)
    requires k <= |t| && |cells| == MEMORY
  {
    forall i :: 0 <= i < k && Printable(t[i]) ==> Count(t, i) < MEMORY && cells[Count(t, i)] == Cell(t[i])
  }

  class Screen {
    const crt: array<int>
    var pos: nat

    ghost predicate Valid()
      reads this
    {
      crt.Length == MEMORY && pos < CELLS
    }

    constructor ()
      ensures Valid() && fresh(crt)
    {
      crt := new int[MEMORY](_ => 0);
      pos := 0;
    }

    /** clearScreen() */
    method Clear()
      requires Valid()
      modifies this, crt
      ensures Valid() && pos == 0
      ensures forall i :: 0 < i < CELLS ==> crt[i] == 0
    {
      pos := 0;
      forall i | 0 <= i < CELLS {
        crt[i] := 0;
      }
      crt[0] := Cell(' ');
    }

    /** The screen moves up a line, and the last line is cleared. */
    method Scroll()
      requires crt.Length == MEMORY && pos == CELLS
      modifies this, crt
      ensures pos == 24 * 80
      ensures forall i :: 0 <= i < pos ==> crt[i] == old(crt[i + 80])
      ensures forall i :: pos <= i < CELLS ==> crt[i] == 0
    {
      forall i | 0 <= i < ROWS * COLUMNS {
        crt[i] := crt[i + COLUMNS];
      }
      pos := pos - COLUMNS;
      forall i | pos <= i < CELLS {
        crt[i] := 0;
      }
    }

    /** cgaputc(): Fine, or it scrolled, or the panic. */
    method Put(c: char) returns (r: Drawing)
      requires Valid()
      modifies this, crt
      ensures crt.Length == MEMORY
      ensures r == Fine <==> Next(old(pos), c) < CELLS
      ensures r == Scrolled <==> Next(old(pos), c) == CELLS
      ensures r != Panicked ==> Valid()
      ensures r == Fine ==>
        && pos == Next(old(pos), c)
        && pos == (if c == '\n' then (old(pos) / 80 + 1) * 80 else if c == '\t' then old(pos) + 4 else old(pos) + 1)
        && (forall i :: 0 <= i < old(pos) ==> crt[i] == old(crt[i]))
        && (forall i :: pos < i < MEMORY ==> crt[i] == old(crt[i]))
        && crt[pos] == 0x720
        && (Printable(c) ==> crt[old(pos)] == Cell(c))
        && (c == '\t' ==> forall i :: old(pos) <= i < old(pos) + 4 ==> crt[i] == 0x720)
        && (c == '\n' ==> forall i :: old(pos) <= i < pos ==> crt[i] == old(crt[i]))
      ensures r == Scrolled ==>
        && pos == 24 * 80 && crt[pos] == 0x720 && (forall i :: pos < i < CELLS ==> crt[i] == 0)
        && (forall i :: 0 <= i < old(pos) - 80 && i < pos ==> crt[i] == old(crt[i + 80]))
        && (Printable(c) ==> crt[pos - 1] == Cell(c))
    {
      if c == '\n' {
        pos := pos + (COLUMNS - pos % COLUMNS);
      } else if c == '\t' {
        crt[pos], crt[pos + 1], crt[pos + 2], crt[pos + 3] := Cell(' '), Cell(' '), Cell(' '), Cell(' ');
        pos := pos + 4;
      } else {
        crt[pos] := Cell(c);
        pos := pos + 1;
      }
      if pos > CELLS {
        return Panicked;
      }
      r := Fine;
      if pos / COLUMNS > ROWS {
        Scroll();
        r := Scrolled;
      }
      crt[pos] := Cell(' ');
    }

    /** The first i characters are drawn and stand. */
    ghost predicate At(t: string, i: nat)
      reads this, crt
    {
      && Valid() && i <= |t| && pos == Count(t, i)
      && TabsFitTo(t, i) && Shows(crt[..], t, i)
    }

    /** One round of copyFromTextToScreen()'s loop. */
    method DrawOne(t: string, i: nat) returns (r: Drawing)
      requires At(t, i) && i < |t| && !StopsAt(t, i)
      modifies this, crt
      ensures r == Fine <==> (t[i] == '\t' ==> Count(t, i) + 4 < CELLS)
      ensures r == Fine ==> At(t, i + 1)
    {
      ghost var before := crt[..];
      StaysOn(t, i);
      r := Put(t[i]);
      if r == Fine {
        Kept(before, crt[..], t, i);
      }
    }

    /** copyFromTextToScreen(text, 0, strlen(text)) on a cleared screen.  Unless a tab reaches past
        the last cell, every character drawn is left standing in the cell vi counts for it; with
        such a tab the screen scrolls or the kernel panics. */
    method CopyText(t: string) returns (r: Drawing)
      requires Valid() && IsText(t) && pos == 0
      modifies this, crt
      ensures r == Fine <==> TabsFit(t)
      ensures r == Fine ==> Valid() && pos == Count(t, Drawn(t, 0)) && Shows(crt[..], t, Drawn(t, 0))
    {
      r := Fine;
      var i := 0;
      while i < |t|
        invariant r == Fine && At(t, i) && Drawn(t, 0) == Drawn(t, i)
        invariant i < |t| ==> !StopsAt(t, i)
      {
        r := DrawOne(t, i);
        if r != Fine {
          return;
        }
        i := i + 1;
        if pos == CELLS - 1 || (pos >= ROWS * COLUMNS && i < |t| && t[i] == '\n') {
          return;
        }
      }
    }

    /** setCursorPos(x, y): false is its panic. */
    method SetCursor(x: int, y: int) returns (ok: bool)
      requires Valid()
      modifies this, crt
      ensures Valid() && (ok <==> 0 <= x <= ROWS && 0 <= y < COLUMNS)
      ensures !ok ==> pos == old(pos) && crt[..] == old(crt[..])
      ensures ok ==> pos == x * COLUMNS + y && crt[..] == old(crt[..])[pos := Lit(old(crt[..])[pos])]
    {
      ok := !(x < 0 || x > ROWS || y < 0 || y > COLUMNS - 1);
      if ok {
        pos := x * COLUMNS + y;
        crt[pos] := Lit(crt[pos]);
      }
    }

    /** redraw() and synchronize(), t being the text from screenbegin on: the hardware cursor ends up on the
        cell that shows the character at dot. */
    method ShowDot(t: string, dot: nat) returns (r: Drawing)
      requires Valid() && IsText(t) && dot < |t| && Count(t, dot) < ROWS * COLUMNS
      modifies this, crt
      ensures r == Fine <==> TabsFit(t)
      ensures r == Fine ==> Valid() && pos == Count(t, dot) && dot < Drawn(t, 0) && Shows(crt[..], t, Drawn(t, 0))
      ensures r == Fine && Printable(t[dot]) ==> crt[pos] == Cell(t[dot])
    {
      Clear();
      r := CopyText(t);
      if r != Fine {
        return;
      }
      DotIsDrawn(t, dot);
      var cnt := CountToDot(t, dot);
      ghost var before := crt[..];
      var ok := SetCursor(cnt / COLUMNS, cnt % COLUMNS);
      forall i | 0 <= i < Drawn(t, 0) && Printable(t[i])
        ensures Count(t, i) < MEMORY && crt[..][Count(t, i)] == Cell(t[i])
      {
        assert before[Count(t, i)] == Cell(t[i]);
        LitCell(t[i]);
      }
    }
  }

  datatype Drawing = Fine | Scrolled | Panicked

  /** Drawing one more character at or after the cursor disturbs none of the earlier ones. */
  lemma Kept(before: seq<int>, after: seq<int>, t: string, i: nat)
    requires |before| == |after| == MEMORY && i < |t| && Shows(before, t, i)
    requires Count(t, i) < MEMORY && forall k :: 0 <= k < Count(t, i) ==> after[k] == before[k]
    requires Printable(t[i]) ==> after[Count(t, i)] == Cell(t[i])
    ensures Shows(after, t, i + 1)
  {
    forall k | 0 <= k < i && Printable(t[k])
      ensures Count(t, k) < MEMORY && after[Count(t, k)] == Cell(t[k])
    {
      var at := Count(t, k);
      assert before[at] == Cell(t[k]);
      CountGrows(t, k, i);
      assert after[at] == before[at];
    }
  }
}
