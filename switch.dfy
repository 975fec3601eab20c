/**
 * The C-style switch of simple_tools/switch.py. switch_flat reads one flat
 * stream: the switch value, then for each case either a pair (case,
 * constant) or a trio (case, callable, args). The first case equal to the
 * switch value decides the result; when none does (or the stream is empty)
 * the base case runs. switch takes the cases as groups and flattens them
 * into such a stream.
 *
 * The objects in the stream are Items. Callables are opaque tokens, and
 * calling one is not evaluated: the result records which callable was
 * applied to which arguments, and how they were passed.
 */
module Switch {
  import opened Runtime

  /** An object in the stream: a constant, a callable, a dict or another iterable (as arguments). */
  datatype Item = Const(v: int) | Fn(id: int) | DictArgs(entries: seq<(int, int)>) | SeqArgs(elements: seq<int>)

  /** `isinstance(x, Callable)`. */
  predicate IsCallable(x: Item) {
    x.Fn?
  }

  /** How args are passed: `fxn(**args)`, `fxn(*args)` or `fxn(args)`. */
  datatype CallForm = Keywords | Positional | SingleArgument

  /** What a switch returns: a matched constant, the result of a call, or None. */
  datatype Outcome = Constant(value: Item) | Call(fxn: int, form: CallForm, args: Item) | NoneValue

  /** A default or error handler `(fxn, args)`, called as `fxn(*args)`. */
  datatype Handler = Handler(fxn: int, args: seq<int>)

  /** Applying a matched callable: a dict as keywords, another iterable spread out, anything else as one argument. */
  function Apply(fxn: int, args: Item): (o: Outcome)
    ensures o.Call? && o.fxn == fxn && o.args == args
    ensures o.form == Keywords <==> args.DictArgs?
    ensures o.form == Positional <==> args.SeqArgs?
  {
    Call(fxn, if args.DictArgs? then Keywords else if args.SeqArgs? then Positional else SingleArgument, args)
  }

  /** The base case: the default if given, else the error handler if given, else None. */
  function BaseCase(default: Option<Handler>, error: Option<Handler>): (o: Outcome)
    ensures default.Some? ==> o == Call(default.value.fxn, Positional, SeqArgs(default.value.args))
    ensures default.None? && error.Some? ==> o == Call(error.value.fxn, Positional, SeqArgs(error.value.args))
    ensures default.None? && error.None? ==> o == NoneValue
  {
    if default.Some? then Call(default.value.fxn, Positional, SeqArgs(default.value.args))
    else if error.Some? then Call(error.value.fxn, Positional, SeqArgs(error.value.args))
    else NoneValue
  }

  // ---------------------------------------------------------------------
  // switch_flat
  // ---------------------------------------------------------------------

  /**
   * switch_flat from the case at position k on, with switch value sw: a
   * match returns at once; a mismatched callable skips its args, a
   * mismatched constant nothing; running out of items in the middle of a
   * pair or trio raises ValueError.
   */
  function FlatFrom(items: seq<Item>, sw: Item, k: nat, default: Option<Handler>, error: Option<Handler>): (r: Result<Outcome>)
    requires k <= |items|
    ensures r.Raised? ==> r.error == ValueError
    decreases |items| - k
  {
    if k == |items| then Ok(BaseCase(default, error))
    else if k + 1 == |items| then Raised(ValueError)
    else
      var fxn := items[k + 1];
      if sw == items[k] then
        if IsCallable(fxn) then
          if k + 2 == |items| then Raised(ValueError) else Ok(Apply(fxn.id, items[k + 2]))
        else Ok(Constant(fxn))
      else if IsCallable(fxn) then
        if k + 2 == |items| then Raised(ValueError) else FlatFrom(items, sw, k + 3, default, error)
      else FlatFrom(items, sw, k + 2, default, error)
  }

  /** switch_flat(*items, default, error): an empty stream goes straight to the base case. */
  function SwitchFlatSpec(items: seq<Item>, default: Option<Handler>, error: Option<Handler>): (r: Result<Outcome>)
    ensures items == [] ==> r == Ok(BaseCase(default, error))
  {
    if items == [] then Ok(BaseCase(default, error)) else FlatFrom(items, items[0], 1, default, error)
  }

  /**
   * switch_flat: one iterator over the stream, advanced by the for loop
   * (the case) and by next() inside it (the callable or constant, and a
   * callable's args).
   */
  method SwitchFlat(items: seq<Item>, default: Option<Handler>, error: Option<Handler>) returns (r: Result<Outcome>)
    ensures r == SwitchFlatSpec(items, default, error)
  {
    if |items| == 0 {
      return Ok(BaseCase(default, error));   // the AssertionError of a blank stream
    }
    var switchValue := items[0];
    var pos := 1;
    while pos < |items|
      invariant 1 <= pos <= |items|
      invariant FlatFrom(items, switchValue, pos, default, error) == SwitchFlatSpec(items, default, error)
      decreases |items| - pos
    {
      var caseValue := items[pos];
      pos := pos + 1;
      if pos == |items| {
        return Raised(ValueError);
      }
      var fxn := items[pos];
      pos := pos + 1;
      var isCallable := IsCallable(fxn);
      if switchValue == caseValue {
        if isCallable {
          if pos == |items| {
            return Raised(ValueError);
          }
          var args := items[pos];
          return Ok(Apply(fxn.id, args));
        }
        return Ok(Constant(fxn));
      } else if isCallable {
        if pos == |items| {
          return Raised(ValueError);
        }
        pos := pos + 1;
      }
    }
    return Ok(BaseCase(default, error));
  }

  /** Once a case has matched, nothing after it is read: appending to the stream changes nothing. */
  lemma {:induction false} MatchIgnoresRest(items: seq<Item>, rest: seq<Item>, sw: Item, k: nat,
                                            default: Option<Handler>, error: Option<Handler>)
    requires k <= |items|
    requires FlatFrom(items, sw, k, default, error).Ok?
    requires FlatFrom(items, sw, k, default, error).value != BaseCase(default, error)
    ensures FlatFrom(items + rest, sw, k, default, error) == FlatFrom(items, sw, k, default, error)
    decreases |items| - k
  {
    var all := items + rest;
    assert k + 1 < |items|;
    assert all[k] == items[k] && all[k + 1] == items[k + 1];
    if sw != items[k] {
      if IsCallable(items[k + 1]) {
        MatchIgnoresRest(items, rest, sw, k + 3, default, error);
      } else {
        MatchIgnoresRest(items, rest, sw, k + 2, default, error);
      }
    } else if IsCallable(items[k + 1]) {
      assert all[k + 2] == items[k + 2];
    }
  }

  // ---------------------------------------------------------------------
  // switch and its convert
  // ---------------------------------------------------------------------

  /** The arguments of switch: nothing at all, or a switch value followed by the case groups. */
  datatype SwitchArgs = NoArgs | Args(sw: Item, groups: seq<seq<Item>>)

  /**
   * What convert yields for one group: the case, the callable or constant,
   * and a callable's args; a group too short for that raises IndexError.
   */
  function GroupItems(g: seq<Item>): (r: Result<seq<Item>>)
    ensures r.Raised? ==> r.error == IndexError
  {
    if |g| < 2 then Raised(IndexError)
    else if IsCallable(g[1]) then (if |g| < 3 then Raised(IndexError) else Ok([g[0], g[1], g[2]]))
    else Ok([g[0], g[1]])
  }

  /** The items of all groups in order, or the first IndexError. */
  function Flatten(groups: seq<seq<Item>>): (r: Result<seq<Item>>)
    ensures r.Raised? ==> r.error == IndexError
  {
    if groups == [] then Ok([])
    else match GroupItems(groups[0])
      case Raised(e) => Raised(e)
      case Ok(first) =>
        match Flatten(groups[1..])
        case Raised(e) => Raised(e)
        case Ok(more) => Ok(first + more)
  }

  /**
   * The generator convert, drained by `*convert()` before switch_flat
   * runs. With no arguments its first next() raises StopIteration inside
   * the generator, which surfaces as RuntimeError (PEP 479).
   */
  function ConvertAsWritten(args: SwitchArgs): (r: Result<seq<Item>>)
    ensures args.NoArgs? ==> r == Raised(RuntimeError)
  {
    match args
    case NoArgs => Raised(RuntimeError)
    case Args(sw, groups) =>
      match Flatten(groups)
      case Raised(e) => Raised(e)
      case Ok(items) => Ok([sw] + items)
  }

  /** convert as a loop over the groups, collecting what it yields. */
  method Convert(args: SwitchArgs) returns (r: Result<seq<Item>>)
    ensures r == ConvertAsWritten(args)
  {
    if args.NoArgs? {
      return Raised(RuntimeError);
    }
    var yielded := [args.sw];
    var i := 0;
    while i < |args.groups|
      invariant 0 <= i <= |args.groups|
      invariant ConvertAsWritten(args) == match Flatten(args.groups[i..])
                                          case Raised(e) => Raised(e)
                                          case Ok(more) => Ok(yielded + more)
    {
      assert args.groups[i..][1..] == args.groups[i + 1..];
      ghost var before := yielded;
      var trioOrPair := args.groups[i];
      if |trioOrPair| < 1 {
        return Raised(IndexError);
      }
      yielded := yielded + [trioOrPair[0]];
      if |trioOrPair| < 2 {
        return Raised(IndexError);
      }
      var fxn := trioOrPair[1];
      yielded := yielded + [fxn];
      if IsCallable(fxn) {
        if |trioOrPair| < 3 {
          return Raised(IndexError);
        }
        yielded := yielded + [trioOrPair[2]];
      }
      assert yielded == before + GroupItems(trioOrPair).value;
      assert forall more :: before + GroupItems(trioOrPair).value + more == before + (GroupItems(trioOrPair).value + more);
      i := i + 1;
    }
    assert args.groups[i..] == [];
    assert yielded + [] == yielded;
    return Ok(yielded);
  }

  /** switch(*args, default, error) as written. */
  function SwitchAsWritten(args: SwitchArgs, default: Option<Handler>, error: Option<Handler>): Result<Outcome> {
    match ConvertAsWritten(args)
    case Raised(e) => Raised(e)
    case Ok(items) => SwitchFlatSpec(items, default, error)
  }

  /** As written, switch() with no arguments raises RuntimeError, where switch_flat() runs the base case. */
  lemma EmptySwitchRaises(default: Option<Handler>, error: Option<Handler>)
    ensures SwitchAsWritten(NoArgs, default, error) == Raised(RuntimeError)
    ensures SwitchFlatSpec([], default, error) == Ok(BaseCase(default, error))
  {
  }

  /** convert as intended: no arguments convert to the empty stream. */
  function ConvertArgs(args: SwitchArgs): (r: Result<seq<Item>>)
    ensures args.NoArgs? ==> r == Ok([])
    ensures args.Args? ==> r == ConvertAsWritten(args)
  {
    if args.NoArgs? then Ok([]) else ConvertAsWritten(args)
  }

  /** switch(*args, default, error) as intended. */
  function Switch(args: SwitchArgs, default: Option<Handler>, error: Option<Handler>): Result<Outcome> {
    match ConvertArgs(args)
    case Raised(e) => Raised(e)
    case Ok(items) => SwitchFlatSpec(items, default, error)
  }

  /** As intended, switch() with no arguments runs the base case, as switch_flat() does. */
  lemma EmptySwitchRunsBaseCase(default: Option<Handler>, error: Option<Handler>)
    ensures Switch(NoArgs, default, error) == Ok(BaseCase(default, error))
  {
  }

  /** The correction only touches the empty call: wherever switch as written returns, it returns the same. */
  lemma SwitchAgreesWithAsWritten(args: SwitchArgs, default: Option<Handler>, error: Option<Handler>)
    ensures args.Args? ==> Switch(args, default, error) == SwitchAsWritten(args, default, error)
    ensures SwitchAsWritten(args, default, error).Ok? ==> Switch(args, default, error) == SwitchAsWritten(args, default, error)
  {
  }

  // ---------------------------------------------------------------------
  // switch on groups
  // ---------------------------------------------------------------------

  /** A group convert can read: a case and a constant, or a case, a callable and args. */
  predicate WellFormed(g: seq<Item>) {
    |g| >= 2 && (IsCallable(g[1]) ==> |g| >= 3)
  }

  /** The group's case equals the switch value. */
  predicate Matches(g: seq<Item>, sw: Item) {
    |g| > 0 && g[0] == sw
  }

  /** What a matching group gives. */
  function GroupOutcome(g: seq<Item>): Outcome
    requires WellFormed(g)
  {
    if IsCallable(g[1]) then Apply(g[1].id, g[2]) else Constant(g[1])
  }

  /** The first group whose case equals sw decides; with none, the base case. */
  function GroupSwitch(sw: Item, groups: seq<seq<Item>>, default: Option<Handler>, error: Option<Handler>): Outcome
    requires forall i :: 0 <= i < |groups| ==> WellFormed(groups[i])
  {
    if groups == [] then BaseCase(default, error)
    else if Matches(groups[0], sw) then GroupOutcome(groups[0])
    else GroupSwitch(sw, groups[1..], default, error)
  }

  /** GroupSwitch gives the outcome of the first matching group, and the base case when no group matches. */
  lemma {:induction false} GroupSwitchFirstMatch(sw: Item, groups: seq<seq<Item>>, i: nat,
                                                 default: Option<Handler>, error: Option<Handler>)
    requires forall j :: 0 <= j < |groups| ==> WellFormed(groups[j])
    requires i <= |groups|
    requires forall j :: 0 <= j < i ==> !Matches(groups[j], sw)
    ensures i < |groups| && Matches(groups[i], sw) ==> GroupSwitch(sw, groups, default, error) == GroupOutcome(groups[i])
    ensures i == |groups| ==> GroupSwitch(sw, groups, default, error) == BaseCase(default, error)
  {
    if i > 0 {
      GroupSwitchFirstMatch(sw, groups[1..], i - 1, default, error);
    }
  }

  /** Flattening succeeds exactly when every group is well formed, and then the group's items come first. */
  lemma {:induction false} FlattenWellFormed(groups: seq<seq<Item>>)
    ensures Flatten(groups).Ok? <==> forall i :: 0 <= i < |groups| ==> WellFormed(groups[i])
  {
    if groups != [] {
      FlattenWellFormed(groups[1..]);
      assert forall i :: 1 <= i < |groups| ==> groups[1..][i - 1] == groups[i];
    }
  }

  /** The flat scan over a prefix followed by the flattened groups, from the end of the prefix, is the group-level switch. */
  lemma {:induction false} FlatFromGroups(prefix: seq<Item>, groups: seq<seq<Item>>, sw: Item,
                                          default: Option<Handler>, error: Option<Handler>)
    requires forall i :: 0 <= i < |groups| ==> WellFormed(groups[i])
    ensures Flatten(groups).Ok?
    ensures FlatFrom(prefix + Flatten(groups).value, sw, |prefix|, default, error) == Ok(GroupSwitch(sw, groups, default, error))
    decreases |groups|
  {
    FlattenWellFormed(groups);
    if groups == [] {
      assert prefix + [] == prefix;
    } else {
      var g := groups[0];
      var first := GroupItems(g).value;
      FlattenWellFormed(groups[1..]);
      var more := Flatten(groups[1..]).value;
      var all := prefix + (first + more);
      assert all == (prefix + first) + more;
      var k := |prefix|;
      assert all[k] == g[0] && all[k + 1] == g[1];
      if IsCallable(g[1]) {
        assert all[k + 2] == g[2];
      }
      if g[0] != sw {
        FlatFromGroups(prefix + first, groups[1..], sw, default, error);
      }
    }
  }

  /**
   * switch on well-formed groups is the group-level first match; a
   * malformed group (too short for what it holds) raises IndexError.
   */
  lemma SwitchIsGroupSwitch(sw: Item, groups: seq<seq<Item>>, default: Option<Handler>, error: Option<Handler>)
    ensures Switch(Args(sw, groups), default, error).Raised? <==> exists i :: 0 <= i < |groups| && !WellFormed(groups[i])
    ensures (forall i :: 0 <= i < |groups| ==> WellFormed(groups[i])) ==>
              Switch(Args(sw, groups), default, error) == Ok(GroupSwitch(sw, groups, default, error))
  {
    FlattenWellFormed(groups);
    if forall i :: 0 <= i < |groups| ==> WellFormed(groups[i]) {
      FlatFromGroups([sw], groups, sw, default, error);
    }
  }
}
