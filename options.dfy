/**
 * The command-line scanner `Options::mpegd_getopt`: a cursor over argv
 * that returns one option per call.  Short options may be bundled
 * (`-dx`), long options are `--name`, an option's arguments are the words
 * that follow it, and `--` turns every later word into a positional one.
 * Strings are the characters before the terminating NUL; reading at the
 * end of one yields NUL.
 */
module CommandLine {
  import opened Wrappers

  const DONE: int := -1
  const UNKNOWN: int := -2
  const MISSING: int := -3

  /** `mpegd_option_t` without its help texts. */
  datatype OptionSpec = OptionSpec(name1: int, argcnt: nat, name2: string)

  /** The option table, closed by an entry with a negative short name. */
  const Table: seq<OptionSpec> := [
    OptionSpec('?' as int, 0, "help"),
    OptionSpec('a' as int, 0, "ac3"),
    OptionSpec('b' as int, 1, "base-name"),
    OptionSpec('c' as int, 0, "scan"),
    OptionSpec('d' as int, 0, "demux"),
    OptionSpec('D' as int, 0, "no-drop"),
    OptionSpec('e' as int, 0, "no-end"),
    OptionSpec('E' as int, 0, "empty-packs"),
    OptionSpec('F' as int, 0, "first-pts"),
    OptionSpec('h' as int, 0, "no-system-headers"),
    OptionSpec('i' as int, 1, "invalid"),
    OptionSpec('k' as int, 0, "no-packs"),
    OptionSpec('K' as int, 0, "remux-skipped"),
    OptionSpec('l' as int, 0, "list"),
    OptionSpec('m' as int, 1, "packet-max-size"),
    OptionSpec('p' as int, 1, "substream"),
    OptionSpec('P' as int, 2, "substream-map"),
    OptionSpec('r' as int, 0, "remux"),
    OptionSpec('s' as int, 1, "stream"),
    OptionSpec('S' as int, 2, "stream-map"),
    OptionSpec('t' as int, 0, "no-packets"),
    OptionSpec('u' as int, 0, "spu"),
    OptionSpec('V' as int, 0, "version"),
    OptionSpec('x' as int, 0, "split"),
    OptionSpec(-1, 0, "")
  ]

  /** A table the lookups may walk: its last entry is the sentinel. */
  predicate Closed(opts: seq<OptionSpec>)
  {
    |opts| > 0 && opts[|opts| - 1].name1 < 0
  }

  lemma TableClosed()
    ensures Closed(Table) && |Table| == 25
  {
  }

  /** The index of the first entry from i on whose short name is `name1`, stopping at the sentinel. */
  function Find1(opts: seq<OptionSpec>, name1: int, i: nat): (r: Option<nat>)
    requires Closed(opts) && i < |opts|
    ensures r.Some? ==> i <= r.value < |opts| && opts[r.value].name1 == name1 && name1 >= 0
    decreases |opts| - i
  {
    if opts[i].name1 < 0 then None
    else if opts[i].name1 == name1 then Some(i)
    else Find1(opts, name1, i + 1)
  }

  /** The index of the first entry from i on whose long name is `name2`, stopping at the sentinel. */
  function Find2(opts: seq<OptionSpec>, name2: string, i: nat): (r: Option<nat>)
    requires Closed(opts) && i < |opts|
    ensures r.Some? ==> i <= r.value < |opts| && opts[r.value].name2 == name2 && opts[r.value].name1 >= 0
    decreases |opts| - i
  {
    if opts[i].name1 < 0 then None
    else if opts[i].name2 == name2 then Some(i)
    else Find2(opts, name2, i + 1)
  }

  /** The index of the sentinel that ends a walk from i. */
  function Stop(opts: seq<OptionSpec>, i: nat): (e: nat)
    requires Closed(opts) && i < |opts|
    ensures i <= e < |opts| && opts[e].name1 < 0
    ensures forall j :: i <= j < e ==> opts[j].name1 >= 0
    decreases |opts| - i
  {
    if opts[i].name1 < 0 then i else Stop(opts, i + 1)
  }

  /**
   * A short-name lookup finds the first matching entry before the
   * sentinel, and reports none only when no entry before it matches.
   */
  lemma {:induction false} Find1First(opts: seq<OptionSpec>, name1: int, i: nat)
    requires Closed(opts) && i < |opts|
    ensures var r := Find1(opts, name1, i);
      var end := if r.Some? then r.value else Stop(opts, i);
      end <= Stop(opts, i) && forall j :: i <= j < end ==> opts[j].name1 != name1
    decreases |opts| - i
  {
    if opts[i].name1 >= 0 && opts[i].name1 != name1 {
      Find1First(opts, name1, i + 1);
    }
  }

  /** The same for a long-name lookup. */
  lemma {:induction false} Find2First(opts: seq<OptionSpec>, name2: string, i: nat)
    requires Closed(opts) && i < |opts|
    ensures var r := Find2(opts, name2, i);
      var end := if r.Some? then r.value else Stop(opts, i);
      end <= Stop(opts, i) && forall j :: i <= j < end ==> opts[j].name2 != name2
    decreases |opts| - i
  {
    if opts[i].name1 >= 0 && opts[i].name2 != name2 {
      Find2First(opts, name2, i + 1);
    }
  }

  /** `_find_option_name1`: the table walk for a short name. */
  method FindName1(opts: seq<OptionSpec>, name1: int) returns (r: Option<nat>)
    requires Closed(opts)
    ensures r == Find1(opts, name1, 0)
  {
    var i := 0;
    while opts[i].name1 >= 0
      invariant i < |opts| && Find1(opts, name1, i) == Find1(opts, name1, 0)
      decreases |opts| - i
    {
      if opts[i].name1 == name1 {
        return Some(i);
      }
      i := i + 1;
    }
    return None;
  }

  /** `_find_option_name2`: the table walk for a long name (`strcmp`). */
  method FindName2(opts: seq<OptionSpec>, name2: string) returns (r: Option<nat>)
    requires Closed(opts)
    ensures r == Find2(opts, name2, 0)
  {
    var i := 0;
    while opts[i].name1 >= 0
      invariant i < |opts| && Find2(opts, name2, i) == Find2(opts, name2, 0)
      decreases |opts| - i
    {
      if opts[i].name2 == name2 {
        return Some(i);
      }
      i := i + 1;
    }
    return None;
  }

  /** Character k of s, NUL past its end. */
  function CharAt(s: string, k: nat): char
  {
    if k < |s| then s[k] else 0 as char
  }

  /** `curopt`: nothing, or character `pos` of `argv[word]`. */
  datatype Cursor = NoCursor | At(word: nat, pos: nat)

  /** The scanner state: `_atend`, `index1`, `index2`, `curopt`. */
  datatype Scan = Scan(atend: bool, index1: int, index2: int, curopt: Cursor)

  /** `curopt` points into argv, and `index2` is set once `index1` is. */
  predicate Inside(s: Scan, argv: seq<string>)
  {
    (s.index1 >= 0 ==> s.index2 >= 1)
    && (s.curopt.At? ==> s.curopt.word < |argv| && s.curopt.pos <= |argv[s.curopt.word]|)
  }

  /** What one call returns: the new state, the value, and `*optarg` if it was set. */
  datatype Outcome = Outcome(state: Scan, ret: int, optarg: Option<nat>)

  /** The next word as a positional argument (after `--`). */
  function Positional(s: Scan, argv: seq<string>): (o: Outcome)
    requires s.index2 >= 0
  {
    if s.index2 >= |argv| then Outcome(s, DONE, None)
    else Outcome(s.(index1 := s.index2, index2 := s.index2 + 1), 0, Some(s.index2))
  }

  /** An option found in the table: its arguments follow, unless too few words are left. */
  function Accept(opts: seq<OptionSpec>, s: Scan, argv: seq<string>, k: nat, next: Cursor): Outcome
    requires k < |opts| && s.index2 >= 0
  {
    if s.index2 + opts[k].argcnt > |argv| then Outcome(s, MISSING, None)
    else Outcome(s.(index2 := s.index2 + opts[k].argcnt, curopt := next), opts[k].name1, Some(s.index2))
  }

  /** The short option under `curopt`. */
  function Short(opts: seq<OptionSpec>, s: Scan, argv: seq<string>): Outcome
    requires Closed(opts) && Inside(s, argv) && s.index2 >= 0 && s.curopt.At?
  {
    var c := CharAt(argv[s.curopt.word], s.curopt.pos);
    match Find1(opts, c as int, 0)
    case None => Outcome(s, UNKNOWN, None)
    case Some(k) => Accept(opts, s, argv, k, At(s.curopt.word, s.curopt.pos + 1))
  }

  /** A new word: positional, `--`, a long option, or a bundle of short ones. */
  function NewWord(opts: seq<OptionSpec>, s: Scan, argv: seq<string>): Outcome
    requires Closed(opts) && Inside(s, argv) && s.index2 >= 1
  {
    if s.index2 >= |argv| then Outcome(s, DONE, None)
    else
      var w := s.index2;
      var word := argv[w];
      var s := s.(index1 := w, index2 := w + 1, curopt := At(w, 0));
      if CharAt(word, 0) != '-' || CharAt(word, 1) == 0 as char then
        Outcome(s.(curopt := NoCursor), 0, Some(w))
      else if CharAt(word, 1) == '-' then
        if CharAt(word, 2) == 0 as char then Positional(s.(atend := true), argv)
        else match Find2(opts, word[2..], 0)
          case None => Outcome(s, UNKNOWN, None)
          case Some(k) => Accept(opts, s, argv, k, NoCursor)
      else Short(opts, s.(curopt := At(w, 1)), argv)
  }

  /** One call of `mpegd_getopt(argc, argv, &optarg)`. */
  function Step(opts: seq<OptionSpec>, s0: Scan, argv: seq<string>): (o: Outcome)
    requires Closed(opts) && Inside(s0, argv)
  {
    var s := if s0.index1 < 0 then Scan(false, 0, 1, NoCursor) else s0;
    if s.atend then Positional(s, argv)
    else if s.curopt.NoCursor? || CharAt(argv[s.curopt.word], s.curopt.pos) == 0 as char then NewWord(opts, s, argv)
    else Short(opts, s, argv)
  }

  // ---------------------------------------------------------------------
  // Properties of the scanner

  /** Every call keeps `curopt` inside argv, and `index2` never moves back. */
  lemma StepInside(opts: seq<OptionSpec>, s: Scan, argv: seq<string>)
    requires Closed(opts) && Inside(s, argv)
    ensures Inside(Step(opts, s, argv).state, argv)
    ensures Step(opts, s, argv).state.index1 >= 0
    ensures s.index1 >= 0 ==> Step(opts, s, argv).state.index2 >= s.index2
  {
    var t := if s.index1 < 0 then Scan(false, 0, 1, NoCursor) else s;
    if !t.atend && t.curopt.At? && CharAt(argv[t.curopt.word], t.curopt.pos) != 0 as char {
      assert t.curopt.pos < |argv[t.curopt.word]|;
    }
  }

  /** The first call starts at argv[1], outside `--` mode, with no bundle pending. */
  lemma FirstCall(opts: seq<OptionSpec>, s: Scan, argv: seq<string>)
    requires Closed(opts) && s.index1 < 0 && Inside(s, argv)
    ensures Step(opts, s, argv) == Step(opts, Scan(false, 0, 1, NoCursor), argv)
  {
  }

  /** With nothing pending and argv used up, the call is DONE and changes nothing. */
  lemma DoneAtEnd(opts: seq<OptionSpec>, s: Scan, argv: seq<string>)
    requires Closed(opts) && Inside(s, argv) && s.index1 >= 0 && s.curopt.NoCursor? && s.index2 >= |argv|
    ensures Step(opts, s, argv) == Outcome(s, DONE, None)
  {
  }

  /** A word that does not start with `-`, or is `-` alone, is returned as positional 0. */
  lemma PlainWord(opts: seq<OptionSpec>, s: Scan, argv: seq<string>)
    requires Closed(opts) && Inside(s, argv) && s.index1 >= 0 && !s.atend && s.curopt.NoCursor? && s.index2 < |argv|
    requires CharAt(argv[s.index2], 0) != '-' || argv[s.index2] == "-"
    ensures Step(opts, s, argv) == Outcome(Scan(false, s.index2, s.index2 + 1, NoCursor), 0, Some(s.index2))
  {
  }

  /** After `--` every remaining word comes back, in order, as positional 0. */
  lemma AfterDoubleDash(opts: seq<OptionSpec>, s: Scan, argv: seq<string>)
    requires Closed(opts) && Inside(s, argv) && s.index1 >= 0 && !s.atend && s.curopt.NoCursor? && s.index2 < |argv|
    requires argv[s.index2] == "--"
    ensures Step(opts, s, argv).state.atend
    ensures Step(opts, s, argv).ret == (if s.index2 + 1 < |argv| then 0 else DONE)
    ensures Step(opts, s, argv).optarg == (if s.index2 + 1 < |argv| then Some(s.index2 + 1) else None)
    ensures forall t :: Inside(t, argv) && t.index1 >= 0 && t.atend ==>
      Step(opts, t, argv) == (if t.index2 < |argv| then Outcome(t.(index1 := t.index2, index2 := t.index2 + 1), 0, Some(t.index2))
                        else Outcome(t, DONE, None))
  {
  }

  /**
   * `--name` of a known option returns its short name with `optarg` at
   * the next word and skips the option's arguments; too few words left
   * gives MISSING, an unknown name UNKNOWN.
   */
  lemma LongOption(opts: seq<OptionSpec>, s: Scan, argv: seq<string>, name: string)
    requires Closed(opts) && Inside(s, argv) && s.index1 >= 0 && !s.atend && s.curopt.NoCursor? && s.index2 < |argv|
    requires argv[s.index2] == "--" + name && |name| > 0 && 0 as char !in name
    ensures var o := Step(opts, s, argv);
      match Find2(opts, name, 0)
      case None => o.ret == UNKNOWN
      case Some(k) =>
        if s.index2 + 1 + opts[k].argcnt > |argv| then o.ret == MISSING && o.optarg.None?
        else (o.ret == opts[k].name1 && o.optarg == Some(s.index2 + 1)
              && o.state.index2 == s.index2 + 1 + opts[k].argcnt && o.state.curopt.NoCursor?)
  {
    var word := argv[s.index2];
    assert word[2..] == name;
    assert CharAt(word, 0) == '-' && CharAt(word, 1) == '-' && CharAt(word, 2) == name[0];
  }

  /**
   * A bundle `-xy`: the first call returns x and leaves `curopt` on y,
   * the next returns y, the one after starts a new word.
   */
  lemma Bundle(opts: seq<OptionSpec>, s: Scan, argv: seq<string>, x: char, y: char)
    requires Closed(opts) && Inside(s, argv) && s.index1 >= 0 && !s.atend && s.curopt.NoCursor? && s.index2 < |argv|
    requires argv[s.index2] == ['-', x, y] && x != '-' && x != 0 as char && y != 0 as char
    requires Find1(opts, x as int, 0).Some? && opts[Find1(opts, x as int, 0).value].argcnt == 0
    requires Find1(opts, y as int, 0).Some? && opts[Find1(opts, y as int, 0).value].argcnt == 0
    ensures var o1 := Step(opts, s, argv);
      o1.ret == x as int && o1.state.curopt == At(s.index2, 2)
      && Step(opts, o1.state, argv).ret == y as int && Step(opts, o1.state, argv).state.curopt == At(s.index2, 3)
      && Step(opts, Step(opts, o1.state, argv).state, argv) == NewWord(opts, Step(opts, o1.state, argv).state, argv)
  {
  }

  // ---------------------------------------------------------------------
  // The imperative scanner

  class Options {
    /** The flags the getter/setter pairs of `Options` read and write. */
    var noPack: int
    var remuxSkipped: int
    var noShdr: int
    var split: int
    var dvdac3: int
    var drop: int

    var atend: bool
    var index1: int
    var index2: int
    var curopt: Cursor

    /** The member initializers: every flag 0 except `drop`, the scanner not started. */
    constructor ()
      ensures noPack == 0 && remuxSkipped == 0 && noShdr == 0 && split == 0 && dvdac3 == 0 && drop == 1
      ensures State() == Scan(false, -1, -1, NoCursor)
    {
      noPack, remuxSkipped, noShdr, split, dvdac3, drop := 0, 0, 0, 0, 0, 1;
      atend, index1, index2, curopt := false, -1, -1, NoCursor;
    }

    function State(): Scan
      reads this
    {
      Scan(atend, index1, index2, curopt)
    }

    /** `mpegd_getopt(argc, argv, &optarg)`; `optarg` is None where the call leaves it alone. */
    method Getopt(argv: seq<string>) returns (ret: int, optarg: Option<nat>)
      requires Inside(State(), argv)
      modifies this`atend, this`index1, this`index2, this`curopt
      ensures Step(Table, old(State()), argv) == Outcome(State(), ret, optarg)
    {
      TableClosed();
      if index1 < 0 {
        atend, index1, index2, curopt := false, 0, 1, NoCursor;
      }
      if atend {
        if index2 >= |argv| {
          return DONE, None;
        }
        index1 := index2;
        index2 := index2 + 1;
        return 0, Some(index1);
      }
      if curopt.NoCursor? || CharAt(argv[curopt.word], curopt.pos) == 0 as char {
        ret, optarg := TakeWord(argv);
      } else {
        ret, optarg := TakeShort(argv);
      }
    }

    /** The part of `mpegd_getopt` that starts on the next word of argv. */
    method TakeWord(argv: seq<string>) returns (ret: int, optarg: Option<nat>)
      requires Inside(State(), argv) && index2 >= 1
      modifies this`atend, this`index1, this`index2, this`curopt
      ensures NewWord(Table, old(State()), argv) == Outcome(State(), ret, optarg)
    {
      TableClosed();
      if index2 >= |argv| {
        return DONE, None;
      }
      index1 := index2;
      index2 := index2 + 1;
      curopt := At(index1, 0);
      var word := argv[index1];
      if CharAt(word, 0) != '-' || CharAt(word, 1) == 0 as char {
        curopt := NoCursor;
        return 0, Some(index1);
      }
      if CharAt(word, 1) == '-' {
        if CharAt(word, 2) == 0 as char {
          atend := true;
          if index2 >= |argv| {
            return DONE, None;
          }
          index1 := index2;
          index2 := index2 + 1;
          return 0, Some(index1);
        }
        var found := FindName2(Table, word[2..]);
        if found.None? {
          return UNKNOWN, None;
        }
        var k := found.value;
        if index2 + Table[k].argcnt > |argv| {
          return MISSING, None;
        }
        optarg := Some(index2);
        index2 := index2 + Table[k].argcnt;
        curopt := NoCursor;
        return Table[k].name1, optarg;
      }
      curopt := At(index1, 1);
      ret, optarg := TakeShort(argv);
    }

    /** The part of `mpegd_getopt` that takes the short option under `curopt`. */
    method TakeShort(argv: seq<string>) returns (ret: int, optarg: Option<nat>)
      requires Inside(State(), argv) && index2 >= 0 && curopt.At?
      modifies this`index2, this`curopt
      ensures Short(Table, old(State()), argv) == Outcome(State(), ret, optarg)
    {
      TableClosed();
      var found := FindName1(Table, CharAt(argv[curopt.word], curopt.pos) as int);
      if found.None? {
        return UNKNOWN, None;
      }
      var k := found.value;
      if index2 + Table[k].argcnt > |argv| {
        return MISSING, None;
      }
      optarg := Some(index2);
      index2 := index2 + Table[k].argcnt;
      curopt := At(curopt.word, curopt.pos + 1);
      return Table[k].name1, optarg;
    }
  }
}
