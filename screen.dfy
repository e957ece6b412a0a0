/** Small helpers the bot applies to what it reads off the screen, stated over
    an abstract pixel grid and over strings. */
module Screen {

  /** A pixel as its three channels in blue, green, red order. */
  datatype Pixel = Pixel(b: int, g: int, r: int)

  type Grid = seq<seq<Pixel>>

  ghost predicate Rectangular(img: Grid, width: nat)
  {
    forall row :: 0 <= row < |img| ==> |img[row]| == width
  }

  /** A pixel counts as ink when any channel is below the threshold. */
  predicate Ink(p: Pixel, threshold: int)
  {
    p.b < threshold || p.g < threshold || p.r < threshold
  }

  /** Inclusive row and column bounds of a crop. */
  datatype Box = Box(top: int, bottom: int, left: int, right: int)

  ghost predicate RowHasInk(img: Grid, width: nat, row: int, threshold: int)
    requires Rectangular(img, width)
  {
    0 <= row < |img| && exists col :: 0 <= col < width && Ink(img[row][col], threshold)
  }

  ghost predicate ColumnHasInk(img: Grid, width: nat, col: int, threshold: int)
    requires Rectangular(img, width)
  {
    0 <= col < width && exists row :: 0 <= row < |img| && Ink(img[row][col], threshold)
  }

  predicate InBox(box: Box, row: int, col: int)
  {
    box.top <= row <= box.bottom && box.left <= col <= box.right
  }

  /** Every ink pixel in the rows before `row`, and in row `row` before column
      `col`, lies in the box. */
  ghost predicate CoversUpTo(img: Grid, width: nat, threshold: int, box: Box, row: int, col: int)
    requires Rectangular(img, width)
  {
    forall r, c :: (0 <= r < |img| && 0 <= c < width && (r < row || (r == row && c < col))
                    && Ink(img[r][c], threshold)) ==> InBox(box, r, c)
  }

  /** The box holds the centre, and each edge is either the centre's own row
      or column or is reached by an ink pixel. */
  ghost predicate Anchored(img: Grid, width: nat, threshold: int, box: Box)
    requires Rectangular(img, width)
  {
    && 0 <= box.top <= |img| / 2 <= box.bottom
    && 0 <= box.left <= width / 2 <= box.right
    && (box.top == |img| / 2 || RowHasInk(img, width, box.top, threshold))
    && (box.bottom == |img| / 2 || RowHasInk(img, width, box.bottom, threshold))
    && (box.left == width / 2 || ColumnHasInk(img, width, box.left, threshold))
    && (box.right == width / 2 || ColumnHasInk(img, width, box.right, threshold))
  }

  /** The box rect_trim computes: the smallest box holding the image centre
      and every ink pixel. */
  ghost predicate TightBox(img: Grid, width: nat, threshold: int, box: Box)
    requires Rectangular(img, width)
  {
    && Anchored(img, width, threshold, box)
    && (forall row, col :: 0 <= row < |img| && 0 <= col < width && Ink(img[row][col], threshold)
          ==> InBox(box, row, col))
  }

  /** Python slicing s[lo:hi] for bounds that are not negative: both ends are
      clamped to the length. */
  function Slice<T>(s: seq<T>, lo: nat, hi: nat): (r: seq<T>)
    ensures |r| <= |s|
    ensures lo <= hi <= |s| ==> r == s[lo..hi]
    ensures lo <= |s| < hi ==> r == s[lo..]
    ensures lo >= hi || lo >= |s| ==> r == []
  {
    var a := if lo <= |s| then lo else |s|;
    var b := if hi <= |s| then (if hi >= a then hi else a) else |s|;
    s[a..b]
  }

  /** img[top:bottom+1, left:right+1]: the rows top..bottom that the image
      has, each cut to the columns left..right that it has. */
  function Crop(img: Grid, box: Box): (r: Grid)
    requires 0 <= box.top <= box.bottom && 0 <= box.left <= box.right
    ensures |r| == if box.bottom < |img| then box.bottom - box.top + 1
                   else if box.top < |img| then |img| - box.top
                   else 0
    ensures forall i :: 0 <= i < |r| ==> r[i] == Slice(img[box.top + i], box.left, box.right + 1)
  {
    var rows := Slice(img, box.top, box.bottom + 1);
    seq(|rows|, i requires 0 <= i < |rows| => Slice(rows[i], box.left, box.right + 1))
  }

  /** rect_trim: grow a box seeded at the centre until it holds every ink
      pixel, then cut the image to it. */
  method RectTrim(img: Grid, width: nat, threshold: int) returns (box: Box, trimmed: Grid)
    requires Rectangular(img, width)
    ensures 0 <= box.top <= box.bottom && 0 <= box.left <= box.right
    ensures TightBox(img, width, threshold, box)
    ensures trimmed == Crop(img, box)
  {
    box := Box(|img| / 2, |img| / 2, width / 2, width / 2);
    var row := 0;
    while row < |img|
      invariant 0 <= row <= |img|
      invariant Anchored(img, width, threshold, box)
      invariant CoversUpTo(img, width, threshold, box, row, 0)
    {
      box := ScanRow(img, width, threshold, row, box);
      row := row + 1;
    }
    trimmed := Crop(img, box);
  }

  /** The inner loop of rect_trim over one row: widen the box to every ink
      pixel of that row. */
  method ScanRow(img: Grid, width: nat, threshold: int, row: nat, box0: Box) returns (box: Box)
    requires Rectangular(img, width) && row < |img|
    requires Anchored(img, width, threshold, box0)
    requires CoversUpTo(img, width, threshold, box0, row, 0)
    ensures Anchored(img, width, threshold, box)
    ensures CoversUpTo(img, width, threshold, box, row + 1, 0)
  {
    box := box0;
    var col := 0;
    while col < width
      invariant 0 <= col <= width
      invariant Anchored(img, width, threshold, box)
      invariant CoversUpTo(img, width, threshold, box, row, col)
    {
      ghost var before := box;
      if Ink(img[row][col], threshold) {
        var Box(top, bottom, left, right) := box;
        if col < left { left := col; }
        if col > right { right := col; }
        if row < top { top := row; }
        if row > bottom { bottom := row; }
        box := Box(top, bottom, left, right);
        WidenedAnchored(img, width, threshold, before, row, col);
      }
      CoverNextColumn(img, width, threshold, before, box, row, col);
      col := col + 1;
    }
    CoverNextRow(img, width, threshold, box, row);
  }

  /** The box widened to also hold (row, col). */
  function Widened(box: Box, row: int, col: int): (r: Box)
    ensures InBox(r, row, col)
    ensures forall i, j :: InBox(box, i, j) ==> InBox(r, i, j)
  {
    Box(if row < box.top then row else box.top, if row > box.bottom then row else box.bottom,
        if col < box.left then col else box.left, if col > box.right then col else box.right)
  }

  /** Widening to an ink pixel keeps every edge anchored. */
  lemma WidenedAnchored(img: Grid, width: nat, threshold: int, box: Box, row: nat, col: nat)
    requires Rectangular(img, width) && row < |img| && col < width
    requires Ink(img[row][col], threshold)
    requires Anchored(img, width, threshold, box)
    ensures Anchored(img, width, threshold, Widened(box, row, col))
  {
    assert RowHasInk(img, width, row, threshold);
    assert ColumnHasInk(img, width, col, threshold);
  }

  lemma CoverNextColumn(img: Grid, width: nat, threshold: int, before: Box, after: Box,
                        row: nat, col: nat)
    requires Rectangular(img, width) && row < |img| && col < width
    requires CoversUpTo(img, width, threshold, before, row, col)
    requires after == if Ink(img[row][col], threshold) then Widened(before, row, col) else before
    ensures CoversUpTo(img, width, threshold, after, row, col + 1)
  {
  }

  lemma CoverNextRow(img: Grid, width: nat, threshold: int, box: Box, row: nat)
    requires Rectangular(img, width) && row < |img|
    requires CoversUpTo(img, width, threshold, box, row, width)
    ensures CoversUpTo(img, width, threshold, box, row + 1, 0)
  {
  }

  /** Nothing inked is cut off: every ink pixel reappears in the crop at its
      offset from the box's corner. */
  lemma TrimKeepsInk(img: Grid, width: nat, threshold: int, box: Box, row: nat, col: nat)
    requires Rectangular(img, width)
    requires 0 <= box.top <= box.bottom && 0 <= box.left <= box.right
    requires TightBox(img, width, threshold, box)
    requires row < |img| && col < width && Ink(img[row][col], threshold)
    ensures var t := Crop(img, box);
            row - box.top < |t| && col - box.left < |t[row - box.top]|
            && t[row - box.top][col - box.left] == img[row][col]
  {
    var hi := if box.bottom + 1 <= |img| then box.bottom + 1 else |img|;
    assert Slice(img, box.top, box.bottom + 1) == img[box.top..hi];
    var line := img[row];
    var rhi := if box.right + 1 <= width then box.right + 1 else width;
    assert Slice(line, box.left, box.right + 1) == line[box.left..rhi];
  }

  // ----- read_rank -----

  /** The two green-channel samples read_rank takes at one pip position: two
      pixels above its centre and two pixels below. */
  datatype PipProbe = PipProbe(upperGreen: int, lowerGreen: int)

  const PipsPerStat: nat := 6
  const RankedStats: nat := 7
  const GreenAbove: int := 190
  const RedBelow: int := 80

  /** What one pip shows: a green pip raises the stage, a red one lowers it,
      and a blank one ends the row. */
  datatype Pip = Raised | Lowered | Blank

  /** The upper sample is tested first: a green reading above 190 is a raised
      pip whatever the lower sample says; otherwise a green reading below 80
      in the lower sample is a lowered pip; anything else is blank. */
  function Classify(p: PipProbe): (k: Pip)
    ensures k == Raised <==> p.upperGreen > GreenAbove
    ensures k == Lowered <==> p.upperGreen <= GreenAbove && p.lowerGreen < RedBelow
  {
    if p.upperGreen > GreenAbove then Raised
    else if p.lowerGreen < RedBelow then Lowered
    else Blank
  }

  /** The stage a row of pips shows: +1 per green pip and -1 per red pip,
      counted up to the first pip that is neither. */
  function PipCount(pips: seq<PipProbe>): (v: int)
    ensures -|pips| <= v <= |pips|
  {
    if pips == [] then 0
    else if Classify(pips[0]) == Raised then 1 + PipCount(pips[1..])
    else if Classify(pips[0]) == Lowered then -1 + PipCount(pips[1..])
    else 0
  }

  /** A row whose probes are all green up to a blank pip at k shows +k. */
  lemma {:induction false} GreenRunCount(pips: seq<PipProbe>, k: nat)
    requires k <= |pips|
    requires forall i :: 0 <= i < k ==> Classify(pips[i]) == Raised
    requires k < |pips| ==> Classify(pips[k]) == Blank
    ensures PipCount(pips) == k
  {
    if k > 0 {
      GreenRunCount(pips[1..], k - 1);
    }
  }

  /** Pips after the first blank one do not count. */
  lemma {:induction false} PipCountStopsAtBlank(pips: seq<PipProbe>, k: nat)
    requires k < |pips| && Classify(pips[k]) == Blank
    ensures PipCount(pips) == PipCount(pips[..k])
  {
    if k > 0 {
      assert pips[..k][1..] == pips[1..][..k - 1];
      PipCountStopsAtBlank(pips[1..], k - 1);
    }
  }

  /** How many pips of a row show kind k. */
  function CountOf(pips: seq<PipProbe>, k: Pip): (c: nat)
    ensures c <= |pips|
  {
    if pips == [] then 0
    else (if Classify(pips[0]) == k then 1 else 0) + CountOf(pips[1..], k)
  }

  /** The stage is the number of raised pips minus the number of lowered
      pips, both counted before the first blank pip (or over the whole row
      when none is blank). */
  lemma {:induction false} PipCountTally(pips: seq<PipProbe>, k: nat)
    requires k <= |pips|
    requires forall i :: 0 <= i < k ==> Classify(pips[i]) != Blank
    requires k < |pips| ==> Classify(pips[k]) == Blank
    ensures PipCount(pips) == CountOf(pips[..k], Raised) - CountOf(pips[..k], Lowered)
  {
    if k > 0 {
      assert pips[..k][0] == pips[0];
      assert pips[..k][1..] == pips[1..][..k - 1];
      PipCountTally(pips[1..], k - 1);
    }
  }

  /** read_rank: the seven stages shown on the condition screen, each the
      pip count of one row of six probes. */
  method ReadRank(probes: seq<seq<PipProbe>>) returns (ranks: seq<int>)
    requires |probes| == RankedStats
    requires forall j :: 0 <= j < |probes| ==> |probes[j]| == PipsPerStat
    ensures |ranks| == RankedStats
    ensures forall j :: 0 <= j < RankedStats ==> ranks[j] == PipCount(probes[j])
    ensures forall j :: 0 <= j < RankedStats ==> -6 <= ranks[j] <= 6
  {
    ranks := [];
    var j := 0;
    while j < RankedStats
      invariant 0 <= j <= RankedStats && |ranks| == j
      invariant forall q :: 0 <= q < j ==> ranks[q] == PipCount(probes[q])
    {
      var rank := 0;
      var i := 0;
      while i < PipsPerStat
        invariant 0 <= i <= PipsPerStat
        invariant rank + PipCount(probes[j][i..]) == PipCount(probes[j])
      {
        var p := probes[j][i];
        if p.upperGreen > GreenAbove {
          rank := rank + 1;
        } else if p.lowerGreen < RedBelow {
          rank := rank - 1;
        } else {
          break;
        }
        i := i + 1;
      }
      ranks := ranks + [rank];
      j := j + 1;
    }
  }

  // ----- to_jpn_upper -----

  /** The small kana to_jpn_upper turns into their full-size forms. */
  const SmallToLarge: map<char, char> := map[
    'ぁ' := 'あ', 'ぃ' := 'い', 'ぅ' := 'う', 'ぇ' := 'え', 'ぉ' := 'お',
    'っ' := 'つ', 'ゃ' := 'や', 'ゅ' := 'ゆ', 'ょ' := 'よ',
    'ァ' := 'ア', 'ィ' := 'イ', 'ゥ' := 'ウ', 'ェ' := 'エ', 'ォ' := 'オ',
    'ッ' := 'ツ', 'ャ' := 'ヤ', 'ュ' := 'ユ', 'ョ' := 'ヨ'
  ]

  function UpperKana(c: char): char
  {
    if c in SmallToLarge then SmallToLarge[c] else c
  }

  /** to_jpn_upper: every small kana becomes its full-size form, every other
      character stays. */
  function ToJpnUpper(s: string): (r: string)
    ensures |r| == |s|
    ensures forall i :: 0 <= i < |s| ==> r[i] == UpperKana(s[i])
  {
    seq(|s|, i requires 0 <= i < |s| => UpperKana(s[i]))
  }

  /** No small kana is left after the conversion. */
  lemma NoSmallKanaLeft(s: string)
    ensures forall i :: 0 <= i < |s| ==> ToJpnUpper(s)[i] !in SmallToLarge
  {
    forall i | 0 <= i < |s| ensures ToJpnUpper(s)[i] !in SmallToLarge {
      assert SmallToLarge.Values !! SmallToLarge.Keys;
    }
  }

  /** Converting twice is the same as converting once. */
  lemma ToJpnUpperIdempotent(s: string)
    ensures ToJpnUpper(ToJpnUpper(s)) == ToJpnUpper(s)
  {
    NoSmallKanaLeft(s);
  }
}
