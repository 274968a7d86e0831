/** The tags man2html writes when font or size change (man/man2html.cpp:1087-1203). */
module ManMarkup {
  import opened Text

  datatype Kind = FontSpan | SizeSpan

  /** A tag, with the kind of span it is meant to open or close. */
  datatype Tag = OpenFont(name: string) | OpenSize(percent: int) | Close(kind: Kind)

  const STYLED := {"I", "B", "L", "BI", "CR", "CW", "CI", "CB", "TR", "TI", "TB", "HR", "HI", "HB", "CBI", "TBI", "HBI"}

  /** Fonts that have a span of their own. */
  predicate Styled(name: string) {
    name in STYLED
  }

  predicate KnownFont(name: string) {
    name == "P" || name == "R" || Styled(name)
  }

  datatype State = State(font: string, size: int)

  datatype Outcome = Outcome(markup: seq<Tag>, state: State)

  function AfterFont(s: State, name: string): Outcome {
    Outcome((if s.font != "R" && s.font != "P" && s.font != "" then [Close(FontSpan)] else []) +
            (if Styled(name) then [OpenFont(name)] else []),
            s.(font := if KnownFont(name) then name else "R"))
  }

  /** The size a request asks for: a digit, 0, or a change, kept between -9 and 9. */
  function NewSize(size: int, nr: int): int {
    if '0' as int <= nr <= '9' as int then nr - '0' as int
    else if nr == 0 then 0
    else if size + nr > 9 then 9
    else if size + nr < -9 then -9
    else size + nr
  }

  function AfterSize(s: State, nr: int): Outcome {
    var size := NewSize(s.size, nr);
    if size == s.size then Outcome([], s)
    else
      var plain := AfterFont(s, "R");
      var back := AfterFont(plain.state.(size := size), s.font);
      Outcome(plain.markup + SizeTags(s.size, size) + back.markup, back.state)
  }

  function SizeTags(from: int, to: int): seq<Tag> {
    (if from != 0 then [Close(SizeSpan)] else []) + (if to != 0 then [OpenSize(100 + to)] else [])
  }

  class Markup {
    var currentFont: string
    var currentSize: int

    constructor ()
      ensures Now() == State("", 0)
    {
      currentFont, currentSize := "", 0;
    }

    function Now(): State
      reads this
    {
      State(currentFont, currentSize)
    }

    method SetFont(name: string) returns (markup: seq<Tag>)
      modifies this
      ensures Outcome(markup, Now()) == AfterFont(old(Now()), name)
    {
      markup := [];
      if currentFont != "R" && currentFont != "P" && currentFont != "" {
        markup := markup + [Close(FontSpan)];
      }
      if Styled(name) {
        markup := markup + [OpenFont(name)];
      }
      if KnownFont(name) {
        currentFont := name;
      } else {
        currentFont := "R";
      }
    }

    method ChangeToSize(request: int) returns (markup: seq<Tag>)
      modifies this
      ensures Outcome(markup, Now()) == AfterSize(old(Now()), request)
    {
      var nr := request;
      if '0' as int <= nr <= '9' as int {
        nr := nr - '0' as int;
      } else if nr != 0 {
        nr := currentSize + nr;
        if nr > 9 {
          nr := 9;
        }
        if nr < -9 {
          nr := -9;
        }
      }
      if nr == currentSize {
        return [];
      }
      var font := currentFont;
      markup := SetFont("R");
      var tags := [];
      if currentSize != 0 {
        tags := tags + [Close(SizeSpan)];
      }
      if nr != 0 {
        tags := tags + [OpenSize(100 + nr)];
      }
      assert tags == SizeTags(currentSize, nr);
      currentSize := nr;
      var more := SetFont(font);
      markup := markup + tags + more;
    }
  }

  // ----- whole runs -----

  datatype Call = Font(name: string) | Size(nr: int)

  function Apply(s: State, call: Call): Outcome {
    match call
    case Font(name) => AfterFont(s, name)
    case Size(nr) => AfterSize(s, nr)
  }

  /** All tags of a run and the state after it. */
  function Run(s: State, calls: seq<Call>): Outcome
    decreases |calls|
  {
    if calls == [] then Outcome([], s)
    else
      var first := Apply(s, calls[0]);
      var rest := Run(first.state, calls[1..]);
      Outcome(first.markup + rest.markup, rest.state)
  }

  /** The tag opens a span of the kind. */
  predicate Opens(t: Tag, k: Kind) {
    match t
    case OpenFont(_) => k.FontSpan?
    case OpenSize(_) => k.SizeSpan?
    case Close(_) => false
  }

  /** The tags whose spans are open after `tags`, innermost last; `None` when a tag closes a span of
      another kind or none at all. */
  function Open(stack: seq<Tag>, tags: seq<Tag>): Option<seq<Tag>>
    decreases |tags|
  {
    if tags == [] then Some(stack)
    else match tags[0]
      case Close(k) =>
        if stack == [] || !Opens(stack[|stack| - 1], k) then None else Open(stack[..|stack| - 1], tags[1..])
      case t => Open(stack + [t], tags[1..])
  }

  /** The size span outside, with its percentage, and the font span inside, with its font. */
  function Expected(s: State): seq<Tag> {
    (if s.size != 0 then [OpenSize(100 + s.size)] else []) + (if Styled(s.font) then [OpenFont(s.font)] else [])
  }

  predicate Valid(s: State) {
    (s.font == "" || KnownFont(s.font)) && -9 <= s.size <= 9
  }

  lemma {:induction false} OpenAppend(stack: seq<Tag>, a: seq<Tag>, b: seq<Tag>)
    ensures Open(stack, a + b) == match Open(stack, a) { case None => None case Some(t) => Open(t, b) }
    decreases |a|
  {
    if a == [] {
      assert a + b == b;
    } else {
      assert (a + b)[0] == a[0] && (a + b)[1..] == a[1..] + b;
      match a[0]
      case Close(k) =>
        if stack != [] && Opens(stack[|stack| - 1], k) {
          OpenAppend(stack[..|stack| - 1], a[1..], b);
        }
      case t => OpenAppend(stack + [t], a[1..], b);
    }
  }

  lemma OpenOne(stack: seq<Tag>, t: Tag)
    ensures Open(stack, [t]) ==
            match t {
              case Close(k) =>
                if stack == [] || !Opens(stack[|stack| - 1], k) then None else Some(stack[..|stack| - 1])
              case _ => Some(stack + [t])
            }
  {
    assert [t][1..] == [];
  }

  lemma SetFontStack(s: State, name: string)
    requires Valid(s)
    ensures var o := AfterFont(s, name);
            Valid(o.state) && o.state.size == s.size && Open(Expected(s), o.markup) == Some(Expected(o.state))
  {
    var size := if s.size != 0 then [OpenSize(100 + s.size)] else [];
    var closing := if Styled(s.font) then [Close(FontSpan)] else [];
    var opening := if Styled(name) then [OpenFont(name)] else [];
    FontCloses(s, size);
    OpenAppend(Expected(s), closing, opening);
    OpenOne(size, OpenFont(name));
    assert size + [] == size;
  }

  /** Closing the font, if it has a span, leaves the size open. */
  lemma FontCloses(s: State, size: seq<Tag>)
    requires size == if s.size != 0 then [OpenSize(100 + s.size)] else []
    ensures Open(Expected(s), if Styled(s.font) then [Close(FontSpan)] else []) == Some(size)
  {
    if Styled(s.font) {
      assert (size + [OpenFont(s.font)])[..|size|] == size;
      OpenOne(size + [OpenFont(s.font)], Close(FontSpan));
    } else {
      assert size + [] == size;
    }
  }

  lemma PlainSize(size: int)
    ensures Expected(State("R", size)) == if size != 0 then [OpenSize(100 + size)] else []
  {
    assert !Styled("R");
  }

  /** From one size to another while no font span is open. */
  lemma SizeStack(from: int, to: int)
    ensures Open(Expected(State("R", from)), SizeTags(from, to)) == Some(Expected(State("R", to)))
  {
    PlainSize(from);
    PlainSize(to);
    OpenOne([OpenSize(100 + from)], Close(SizeSpan));
    OpenOne([], OpenSize(100 + to));
    OpenAppend(Expected(State("R", from)), if from != 0 then [Close(SizeSpan)] else [],
          if to != 0 then [OpenSize(100 + to)] else []);
    assert [OpenSize(100 + from)][..0] == [] && [] + [OpenSize(100 + to)] == [OpenSize(100 + to)];
  }

  lemma BackFont(size: int, font: string)
    requires font == "" || KnownFont(font)
    ensures AfterFont(State("R", size), font).state == State(if font == "" then "R" else font, size)
  {
  }

  lemma PlainFont(s: State)
    ensures AfterFont(s, "R").state == State("R", s.size)
  {
  }

  lemma OpenThree(s0: seq<Tag>, a: seq<Tag>, s1: seq<Tag>, b: seq<Tag>, s2: seq<Tag>, c: seq<Tag>, s3: seq<Tag>)
    requires Open(s0, a) == Some(s1) && Open(s1, b) == Some(s2) && Open(s2, c) == Some(s3)
    ensures Open(s0, a + b + c) == Some(s3)
  {
    OpenAppend(s0, a, b);
    OpenAppend(s0, a + b, c);
  }

  /** `to` is what a request for `nr` makes of the size `from`: a digit asks for that size and 0 for the
      plain one; anything else is a difference, of which as much is done as sizes between -9 and 9 allow. */
  ghost predicate Asked(from: int, nr: int, to: int) {
    && -9 <= to <= 9
    && (forall d :: 0 <= d <= 9 && nr == "0123456789"[d] as int ==> to == d)
    && (nr == 0 ==> to == 0)
    && (nr != 0 && !('0' as int <= nr <= '9' as int) ==> Nearest(from + nr, to))
  }

  /** No size is nearer to the one wanted. */
  ghost predicate Nearest(wanted: int, to: int) {
    forall size :: -9 <= size <= 9 ==> Distance(wanted, to) <= Distance(wanted, size)
  }

  function Distance(a: int, b: int): int {
    if a < b then b - a else a - b
  }

  /** A font request shows that font, or none for an unknown one; the size stays. */
  lemma FontAsked(s: State, name: string)
    requires Valid(s)
    ensures var o := AfterFont(s, name);
            Open(Expected(s), o.markup) == Some((if s.size != 0 then [OpenSize(100 + s.size)] else []) +
                                                (if Styled(name) then [OpenFont(name)] else []))
  {
    SetFontStack(s, name);
  }

  /** A change of size keeps the font, the initial empty one counting as the regular one. */
  lemma ChangeToSizeStack(s: State, nr: int)
    requires Valid(s)
    ensures var o := AfterSize(s, nr);
            && Valid(o.state) && Asked(s.size, nr, o.state.size)
            && (o.state.font == s.font || (s.font == "" && o.state.font == "R"))
            && Open(Expected(s), o.markup) == Some(Expected(o.state))
  {
    var size := NewSize(s.size, nr);
    if size != s.size {
      var middle := State("R", size);
      PlainFont(s);
      BackFont(size, s.font);
      SetFontStack(s, "R");
      SetFontStack(middle, s.font);
      SizeStack(s.size, size);
      OpenThree(Expected(s), AfterFont(s, "R").markup, Expected(State("R", s.size)),
                SizeTags(s.size, size), Expected(middle), AfterFont(middle, s.font).markup,
                Expected(AfterFont(middle, s.font).state));
    }
  }

  /** Over any run of calls the tags nest: each one closes a span of its own kind, and what is open
      is the span of the size, if it is not 0, around the span of the font, if it has one. */
  lemma {:induction false} RunStack(s: State, calls: seq<Call>)
    requires Valid(s)
    ensures var o := Run(s, calls); Valid(o.state) && Open(Expected(s), o.markup) == Some(Expected(o.state))
    decreases |calls|
  {
    if calls != [] {
      match calls[0] {
        case Font(name) => SetFontStack(s, name);
        case Size(nr) => ChangeToSizeStack(s, nr);
      }
      var first := Apply(s, calls[0]);
      RunStack(first.state, calls[1..]);
      OpenAppend(Expected(s), first.markup, Run(first.state, calls[1..]).markup);
    }
  }

  /** `set_font("R")` and then `change_to_size(0)` close everything a run has left open. */
  lemma RunCloses(calls: seq<Call>)
    ensures var o := Run(State("", 0), calls + [Font("R"), Size(0)]);
            Open([], o.markup) == Some([]) && o.state == State("R", 0)
  {
    var start, last := State("", 0), [Font("R"), Size(0)];
    NothingOpen();
    RunStack(start, calls + last);
    RunAppend(start, calls, last);
    LastTwo(Run(start, calls).state);
  }

  lemma NothingOpen()
    ensures Valid(State("", 0)) && Expected(State("", 0)) == [] && Expected(State("R", 0)) == []
  {
    assert !Styled("R") && !Styled("");
  }

  lemma LastTwo(s: State)
    ensures Run(s, [Font("R"), Size(0)]).state == State("R", 0)
  {
    var plain := AfterFont(s, "R").state;
    assert plain.font == "R";
    assert [Font("R"), Size(0)][1..] == [Size(0)] && [Size(0)][1..] == [];
    assert Run(plain, [Size(0)]).state == AfterSize(plain, 0).state;
  }

  lemma {:induction false} RunAppend(s: State, a: seq<Call>, b: seq<Call>)
    ensures Run(s, a + b).state == Run(Run(s, a).state, b).state
    decreases |a|
  {
    if a == [] {
      assert a + b == b;
    } else {
      assert (a + b)[0] == a[0] && (a + b)[1..] == a[1..] + b;
      RunAppend(Apply(s, a[0]).state, a[1..], b);
    }
  }
}
