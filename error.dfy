/**
 * Error reporting helpers of src/common/error.c: the source excerpt with a
 * highlighted range that diagnostics print, and the Optional result type
 * with its stack of value pointers.
 */
module Errors {
  import opened Wrappers
  import opened Str

  // ------------------------------------------------------------ highlight_line

  /** struct gramina_highlight_position: lines and columns count from 1. */
  datatype HighlightPosition = HighlightPosition(startLine: nat, startColumn: nat, endLine: nat, endColumn: nat)

  /** struct gramina_highlight_info: the escape sequences that switch highlighting on and off, and start the underline. */
  datatype HighlightInfo = HighlightInfo(enable: seq<char>, disable: seq<char>, underline: seq<char>)

  const HIGHLIGHT_FAILED := "<error-while-generating-highlight>"

  /** The number of newlines in s[..i]. */
  function NewlinesBefore(s: seq<char>, i: nat): nat
    requires i <= |s|
  {
    if i == 0 then 0 else NewlinesBefore(s, i - 1) + (if s[i - 1] == '\n' then 1 else 0)
  }

  /** The line number of the byte at index i. */
  function LineAt(s: seq<char>, i: nat): nat
    requires i <= |s|
  {
    1 + NewlinesBefore(s, i)
  }

  /** The first index below n on line L. */
  function FirstOnLine(s: seq<char>, n: nat, L: nat): (r: Option<nat>)
    requires n <= |s|
    ensures r.Some? ==> r.value < n && LineAt(s, r.value) == L
    ensures r.Some? ==> forall j :: 0 <= j < r.value ==> LineAt(s, j) != L
    ensures r.None? ==> forall j :: 0 <= j < n ==> LineAt(s, j) != L
  {
    if n == 0 then None
    else match FirstOnLine(s, n - 1, L)
      case Some(j) => Some(j)
      case None => if LineAt(s, n - 1) == L then Some(n - 1) else None
  }

  /** The first index below n holding the newline that ends line L. */
  function EndBefore(s: seq<char>, n: nat, L: nat): (r: Option<nat>)
    requires n <= |s|
    ensures r.Some? ==> r.value < n && s[r.value] == '\n' && LineAt(s, r.value) == L
    ensures r.None? ==> forall j :: 0 <= j < n ==> !(s[j] == '\n' && LineAt(s, j) == L)
  {
    if n == 0 then None
    else match EndBefore(s, n - 1, L)
      case Some(j) => Some(j)
      case None => if s[n - 1] == '\n' && LineAt(s, n - 1) == L then Some(n - 1) else None
  }

  /** The newline that ends line L, if the source has one. */
  function LineEnd(s: seq<char>, L: nat): Option<nat>
  {
    EndBefore(s, |s|, L)
  }

  /** What the first loop of highlight_line finds: where the first and last lines start, and where the last ends. */
  datatype Located = Located(first: Option<nat>, last: Option<nat>, wantEnd: Option<nat>)

  /** The scan stops at the newline ending the last line; before it, the line starts are the first indices on them. */
  function LocateSpec(s: seq<char>, loc: HighlightPosition): Located
  {
    match LineEnd(s, loc.endLine)
    case None => Located(FirstOnLine(s, |s|, loc.startLine), FirstOnLine(s, |s|, loc.endLine), None)
    case Some(w) => Located(FirstOnLine(s, w + 1, loc.startLine), FirstOnLine(s, w + 1, loc.endLine), Some(w))
  }

  /** The first loop of highlight_line, with (size_t)-1 written as None. */
  method Locate(s: seq<char>, loc: HighlightPosition) returns (r: Located)
    ensures r == LocateSpec(s, loc)
  {
    var currentLine := 1;
    var first: Option<nat> := None;
    var last: Option<nat> := None;
    var i := 0;
    while i < |s|
      invariant 0 <= i <= |s|
      invariant currentLine == LineAt(s, i)
      invariant first == FirstOnLine(s, i, loc.startLine) && last == FirstOnLine(s, i, loc.endLine)
      invariant EndBefore(s, i, loc.endLine) == None
    {
      if currentLine == loc.startLine && first.None? {
        first := Some(i);
      }
      if currentLine == loc.endLine && last.None? {
        last := Some(i);
      }
      if s[i] == '\n' {
        if currentLine == loc.endLine {
          assert EndBefore(s, |s|, loc.endLine) == Some(i) by {
            EndBeforeFirst(s, |s|, loc.endLine, i);
          }
          return Located(first, last, Some(i));
        }
        currentLine := currentLine + 1;
      }
      i := i + 1;
    }
    return Located(first, last, None);
  }

  lemma EndBeforeFirst(s: seq<char>, n: nat, L: nat, i: nat)
    requires i < n <= |s| && s[i] == '\n' && LineAt(s, i) == L
    requires EndBefore(s, i, L) == None
    ensures EndBefore(s, n, L) == Some(i)
  {
  }

  /** Line numbers never decrease along the source. */
  lemma {:induction false} LineAtMonotone(s: seq<char>, i: nat, j: nat)
    requires i <= j <= |s|
    ensures LineAt(s, i) <= LineAt(s, j)
    decreases j - i
  {
    if i < j {
      LineAtMonotone(s, i, j - 1);
    }
  }

  /** The first index found on a line is where that line starts: at 0 or just after a newline. */
  lemma LineStartFollowsNewline(s: seq<char>, n: nat, L: nat)
    requires n <= |s| && FirstOnLine(s, n, L).Some?
    ensures var j := FirstOnLine(s, n, L).value; j == 0 || s[j - 1] == '\n'
  {
  }

  /** A line number right-aligned in a field `padding` wide, as printf's %*zu writes it. */
  function Gutter(line: nat, padding: nat): (g: seq<char>)
    ensures |g| == if NumDigits(line) < padding then padding else NumDigits(line)
  {
    var d := Decimal(line);
    if |d| < padding then Repeat(' ', padding - |d|) + d else d
  }

  /** Where the rendering loop has got to: output so far, current line and column. */
  datatype Cursor = Cursor(out: seq<char>, line: nat, column: nat)

  /** One iteration of the rendering loop: the byte is copied (a newline starts a new gutter), then the markers. */
  function RenderChar(c: Cursor, ch: char, loc: HighlightPosition, hi: HighlightInfo, padding: nat): (r: Cursor)
    ensures ch == '\n' ==> r.line == c.line + 1 && r.column == 1
    ensures ch != '\n' ==> r.line == c.line && r.column == c.column + 1
  {
    var moved := if ch == '\n' then Cursor(c.out + "\n " + Gutter(c.line + 1, padding) + " | ", c.line + 1, 1)
                 else Cursor(c.out + [ch], c.line, c.column + 1);
    var on := if moved.line == loc.endLine && moved.column == loc.startColumn then moved.(out := moved.out + hi.enable) else moved;
    if on.line == loc.endLine && on.column == loc.endColumn + 1 then on.(out := on.out + hi.disable) else on
  }

  /** The rendering loop over a region, from a starting cursor. */
  function RenderRegion(region: seq<char>, start: Cursor, loc: HighlightPosition, hi: HighlightInfo, padding: nat): Cursor
  {
    if |region| == 0 then start
    else RenderChar(RenderRegion(region[..|region| - 1], start, loc, hi, padding), region[|region| - 1], loc, hi, padding)
  }

  /** The rendering keeps everything it has written: only appends. */
  lemma {:induction false} RenderExtends(region: seq<char>, start: Cursor, loc: HighlightPosition, hi: HighlightInfo, padding: nat)
    ensures start.out <= RenderRegion(region, start, loc, hi, padding).out
    ensures RenderRegion(region, start, loc, hi, padding).line == start.line + NewlinesBefore(region, |region|)
  {
    if |region| > 0 {
      var r' := region[..|region| - 1];
      RenderExtends(r', start, loc, hi, padding);
      NewlinesPrefix(region, |region| - 1);
    }
  }

  lemma NewlinesPrefix(s: seq<char>, i: nat)
    requires i <= |s|
    ensures NewlinesBefore(s[..i], i) == NewlinesBefore(s, i)
  {
    var k := 0;
    while k < i
      invariant 0 <= k <= i && NewlinesBefore(s[..i], k) == NewlinesBefore(s, k)
    {
      k := k + 1;
    }
  }

  /** The underline row: spaces under the gutter and the text, then one '~' per highlighted column. */
  function Underline(loc: HighlightPosition, hi: HighlightInfo, padding: nat): seq<char>
    requires loc.startColumn <= loc.endColumn
  {
    "\n" + Repeat(' ', padding + 3 + loc.startColumn) + hi.underline + Repeat('~', loc.endColumn - loc.startColumn + 1) + hi.disable
  }

  /** The text before the region: a space, the gutter of the first line, and the separator. */
  function FirstGutter(loc: HighlightPosition, padding: nat): seq<char>
  {
    " " + Gutter(loc.startLine, padding) + " | "
  }

  /** The checks after the first loop: a missing line start or end, or an index past the source, fails. */
  predicate Located_OK(s: seq<char>, l: Located)
  {
    l.first.Some? && l.last.Some? && l.wantEnd.Some? && l.first.value < |s| && l.wantEnd.value < |s|
  }

  /**
   * highlight_line as written. With a single line and a start column of 1
   * the enable sequence is never written: the column is only compared after
   * it has been advanced past the first byte.
   */
  function HighlightLineAsWritten(s: seq<char>, loc: HighlightPosition, hi: HighlightInfo): (r: seq<char>)
    requires loc.startColumn <= loc.endColumn
  {
    var l := LocateSpec(s, loc);
    if !Located_OK(s, l) then HIGHLIGHT_FAILED
    else
      var padding := NumDigits(loc.endLine);
      var region := s[l.first.value..l.wantEnd.value];
      var c := RenderRegion(region, Cursor(FirstGutter(loc, padding), loc.startLine, 1), loc, hi, padding);
      c.out + Underline(loc, hi, padding)
  }

  /** Highlighting starts at the first column of the region only for a single-line range from column 1. */
  predicate StartsAtRegionStart(loc: HighlightPosition)
  {
    loc.startLine == loc.endLine && loc.startColumn == 1
  }

  /** highlight_line as intended: a single-line range from column 1 switches highlighting on before its first byte. */
  function HighlightLineSpec(s: seq<char>, loc: HighlightPosition, hi: HighlightInfo): (r: seq<char>)
    requires loc.startColumn <= loc.endColumn
  {
    var l := LocateSpec(s, loc);
    if !Located_OK(s, l) then HIGHLIGHT_FAILED
    else
      var padding := NumDigits(loc.endLine);
      var region := s[l.first.value..l.wantEnd.value];
      var head := FirstGutter(loc, padding) + (if StartsAtRegionStart(loc) then hi.enable else []);
      var c := RenderRegion(region, Cursor(head, loc.startLine, 1), loc, hi, padding);
      c.out + Underline(loc, hi, padding)
  }

  /** highlight_line, corrected, with its loops. */
  method HighlightLine(s: seq<char>, loc: HighlightPosition, hi: HighlightInfo) returns (out: seq<char>)
    requires loc.startColumn <= loc.endColumn && loc.endLine < U64_LIMIT
    ensures out == HighlightLineSpec(s, loc, hi)
  {
    var l := Locate(s, loc);
    if l.first.None? || l.last.None? || l.wantEnd.None? || l.first.value >= |s| || l.wantEnd.value >= |s| {
      return HIGHLIGHT_FAILED;
    }
    var padding := CountDigits(loc.endLine);
    var region := s[l.first.value..l.wantEnd.value];
    out := FirstGutter(loc, padding);
    if loc.startLine == loc.endLine && loc.startColumn == 1 {
      out := out + hi.enable;
    }
    assert out == FirstGutter(loc, padding) + (if StartsAtRegionStart(loc) then hi.enable else []);
    var c := RenderLoop(region, Cursor(out, loc.startLine, 1), loc, hi, padding);
    out := AppendUnderline(c.out, loc, hi, padding);
  }

  /** The rendering loop of highlight_line over the region between the line starts and the final newline. */
  method RenderLoop(region: seq<char>, start: Cursor, loc: HighlightPosition, hi: HighlightInfo, padding: nat) returns (c: Cursor)
    ensures c == RenderRegion(region, start, loc, hi, padding)
  {
    var out := start.out;
    var line := start.line;
    var column := start.column;
    var k := 0;
    while k < |region|
      invariant 0 <= k <= |region|
      invariant Cursor(out, line, column) == RenderRegion(region[..k], start, loc, hi, padding)
    {
      assert region[..k + 1][..k] == region[..k];
      var ch := region[k];
      column := column + 1;
      if ch == '\n' {
        column := 1;
        line := line + 1;
        out := out + "\n " + Gutter(line, padding) + " | ";
      } else {
        out := out + [ch];
      }
      if line == loc.endLine && column == loc.startColumn {
        out := out + hi.enable;
      }
      if line == loc.endLine && column == loc.endColumn + 1 {
        out := out + hi.disable;
      }
      k := k + 1;
    }
    assert region[..|region|] == region;
    c := Cursor(out, line, column);
  }

  /** The two loops that write the underline row. */
  method AppendUnderline(prefix: seq<char>, loc: HighlightPosition, hi: HighlightInfo, padding: nat) returns (out: seq<char>)
    requires loc.startColumn <= loc.endColumn
    ensures out == prefix + Underline(loc, hi, padding)
  {
    out := prefix + "\n";
    var i := 0;
    while i < padding + 3 + loc.startColumn
      invariant 0 <= i <= padding + 3 + loc.startColumn
      invariant out == prefix + "\n" + Repeat(' ', i)
    {
      out := out + " ";
      i := i + 1;
    }
    out := out + hi.underline;
    i := 0;
    while i <= loc.endColumn - loc.startColumn
      invariant 0 <= i <= loc.endColumn - loc.startColumn + 1
      invariant out == prefix + "\n" + Repeat(' ', padding + 3 + loc.startColumn) + hi.underline + Repeat('~', i)
    {
      out := out + "~";
      i := i + 1;
    }
    out := out + hi.disable;
  }

  /** The correction changes nothing unless the range is a single line starting at column 1. */
  lemma CorrectionIsLocal(s: seq<char>, loc: HighlightPosition, hi: HighlightInfo)
    requires loc.startColumn <= loc.endColumn && !StartsAtRegionStart(loc)
    ensures HighlightLineSpec(s, loc, hi) == HighlightLineAsWritten(s, loc, hi)
  {
    assert FirstGutter(loc, NumDigits(loc.endLine)) + [] == FirstGutter(loc, NumDigits(loc.endLine));
  }

  /** Lines missing from the source, or a range that ends before it starts, give the fixed failure text. */
  lemma MissingLinesFail(s: seq<char>, loc: HighlightPosition, hi: HighlightInfo)
    requires loc.startColumn <= loc.endColumn
    requires LineEnd(s, loc.endLine).None? || loc.startLine == 0 || loc.startLine > loc.endLine
    ensures HighlightLineSpec(s, loc, hi) == HIGHLIGHT_FAILED
  {
    var l := LocateSpec(s, loc);
    if l.wantEnd.Some? && l.first.Some? {
      var w := l.wantEnd.value;
      var j := l.first.value;
      assert LineAt(s, j) == loc.startLine && LineAt(s, w) == loc.endLine;
      LineAtMonotone(s, j, w);
    }
  }

  /** The example below: "ab\n" with the range line 1, columns 1 to 1, shown with '<', '>' and '^'. */
  function Example(): (HighlightPosition, HighlightInfo)
  {
    (HighlightPosition(1, 1, 1, 1), HighlightInfo("<", ">", "^"))
  }

  lemma ExampleLocates()
    ensures LocateSpec("ab\n", Example().0) == Located(Some(0), Some(0), Some(2))
  {
    var s := "ab\n";
    assert LineAt(s, 0) == 1 && LineAt(s, 1) == 1 && LineAt(s, 2) == 1;
    assert EndBefore(s, 2, 1) == None;
    assert LineEnd(s, 1) == Some(2);
    assert FirstOnLine(s, 3, 1) == Some(0);
  }

  lemma ExampleRenders(start: seq<char>)
    ensures RenderRegion("ab", Cursor(start, 1, 1), Example().0, Example().1, 1) == Cursor(start + "a>b", 1, 3)
  {
    var (loc, hi) := Example();
    assert "ab"[..1] == "a";
    assert "a"[..0] == [];
    assert RenderRegion("a", Cursor(start, 1, 1), loc, hi, 1) == Cursor(start + "a>", 1, 2);
  }

  lemma ExampleTail()
    ensures FirstGutter(Example().0, 1) == " 1 | " && Underline(Example().0, Example().1, 1) == "\n     ^~>"
  {
    assert Decimal(1) == "1";
    assert Repeat(' ', 5) == "     ";
    assert Repeat('~', 1) == "~";
  }

  /**
   * The as-written defect on the source "ab\n" with the range line 1,
   * columns 1 to 1: highlighting is switched off after 'a' but never on.
   */
  lemma SingleLineFromColumnOne()
    ensures HighlightLineAsWritten("ab\n", Example().0, Example().1) == " 1 | a>b\n     ^~>"
    ensures HighlightLineSpec("ab\n", Example().0, Example().1) == " 1 | <a>b\n     ^~>"
  {
    ExampleLocates();
    ExampleTail();
    assert "ab\n"[0..2] == "ab";
    assert NumDigits(1) == 1;
    ExampleRenders(" 1 | ");
    ExampleRenders(" 1 | <");
    assert FirstGutter(Example().0, 1) + Example().1.enable == " 1 | <";
  }

  // ------------------------------------------------------------ Optional

  /** The `void *value` of an Optional: NULL, the stand-in `stdin` of a valueless success, or a heap pointer. */
  datatype OptValue = NoValue | Stdin | Ptr(addr: nat)

  /** struct gramina_optional. */
  datatype Optional = Optional(code: int, message: seq<char>, value: OptValue)

  /** opt_has_value: any pointer but NULL. */
  predicate HasValue(o: Optional) { o.value != NoValue }

  /** opt_has_error: exactly the Optionals without a value. */
  predicate HasError(o: Optional) { !HasValue(o) }

  /** mk_opt_e: an error code with an empty message. */
  function MkOptE(code: int): (o: Optional)
    ensures HasError(o) && o.code == code && o.message == []
  {
    Optional(code, [], NoValue)
  }

  /** mk_opt_e_msg, mk_opt_e_msg_own and mk_opt_e_msg_c: an error code with a copy of (or the given) message. */
  function MkOptEMsg(code: int, msg: seq<char>): (o: Optional)
    ensures HasError(o) && o.code == code && o.message == msg
  {
    Optional(code, msg, NoValue)
  }

  /** mk_opt_void: success without a value, marked by a pointer that is never NULL. */
  function MkOptVoid(): (o: Optional)
    ensures HasValue(o) && !HasError(o) && o.code == 0 && o.message == []
  {
    Optional(0, [], Stdin)
  }

  /** opt_free: a heap value is released (the pointer becomes NULL); the message is always released. */
  function OptFree(o: Optional): (r: Optional)
    ensures r.code == o.code && r.message == []
    ensures o.value.Ptr? ==> r.value == NoValue
    ensures !o.value.Ptr? ==> r.value == o.value
  {
    if o.value.Ptr? then Optional(o.code, [], NoValue) else o.(message := [])
  }

  /** Freeing twice is freeing once; a freed valued Optional reads as an error unless it was valueless success. */
  lemma OptFreeIdempotent(o: Optional)
    ensures OptFree(OptFree(o)) == OptFree(o)
    ensures HasValue(OptFree(o)) <==> o.value == Stdin
  {
  }

  /**
   * The static pointer stack of __gramina_get_opt_value_ptr, with the heap
   * cells those pointers address. Allocation takes its address as a
   * parameter.
   */
  class OptValueStack<V> {
    var stack: seq<nat>
    var cells: map<nat, V>

    constructor ()
      ensures stack == [] && cells == map[]
    {
      stack := [];
      cells := map[];
    }

    /**
     * __gramina_get_opt_value_ptr: with prev, the most recent pointer is
     * popped and returned (the source asserts there is one); otherwise a new
     * cell at addr is pushed and returned.
     */
    method GetOptValuePtr(prev: bool, addr: nat) returns (ptr: nat)
      requires prev ==> |stack| > 0
      requires !prev ==> addr !in cells
      modifies this
      ensures prev ==> ptr == old(stack)[|old(stack)| - 1] && stack == old(stack)[..|old(stack)| - 1]
      ensures !prev ==> ptr == addr && stack == old(stack) + [addr]
      ensures cells == old(cells)
    {
      if prev {
        ptr := stack[|stack| - 1];
        stack := stack[..|stack| - 1];
        return;
      }
      stack := stack + [addr];
      ptr := addr;
    }

    /** Stores v at a cell. */
    method Store(ptr: nat, v: V)
      modifies this
      ensures cells == old(cells)[ptr := v] && stack == old(stack)
    {
      cells := cells[ptr := v];
    }

    /**
     * mk_opt_v: a new cell receives v and is pushed, then popped again as the
     * Optional's value; the stack ends as it began.
     */
    method MkOptV(v: V, addr: nat) returns (o: Optional)
      requires addr !in cells
      modifies this
      ensures o == Optional(0, [], Ptr(addr)) && HasValue(o)
      ensures cells == old(cells)[addr := v] && addr in cells && cells[addr] == v
      ensures stack == old(stack)
    {
      var p := GetOptValuePtr(false, addr);
      Store(p, v);
      var q := GetOptValuePtr(true, 0);
      o := Optional(0, [], Ptr(q));
    }
  }
}
