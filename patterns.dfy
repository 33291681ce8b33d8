/**
 * The ServicePattern family: predicates over service descriptions.
 * A `Pattern` value is one of PropertyPattern, PositionPattern,
 * FlagPattern or the conjunction held by a MultiPattern; `Match` is
 * `matchDescription`.
 */
module Patterns {

  import opened Wrappers
  import opened ServiceFlags
  import opened Descriptions

  /**
   * The regular-expression library, which lies outside this model:
   * `wellFormed(e)` holds when `e` is valid POSIX extended syntax, and
   * `search(e, text)` when the expression `e` is found in `text`.
   */
  datatype RegexEngine = RegexEngine(
    wellFormed: string -> bool,
    search: (string, string) -> bool)

  /** The label that makes a PropertyPattern search every description. */
  const WILDCARD: string := "*"

  /**
   * A PropertyPattern keeps its label in `key`.  Property values are meant
   * to come from NewPropertyPattern, which rejects a malformed expression;
   * `WellFormed` says a pattern was built that way.
   */
  datatype Pattern =
    | Property(key: string, expression: string)
    | Position(x: int, y: int, z: int, distance: real)
    | FlagSet(flags: FlagMask)
    | Multi(patterns: seq<Pattern>)

  /** Every regular expression in `p` compiles. */
  predicate WellFormed(p: Pattern, rx: RegexEngine)
    decreases p
  {
    match p
    case Property(_, expression) => rx.wellFormed(expression)
    case Multi(patterns) => forall i :: 0 <= i < |patterns| ==> WellFormed(patterns[i], rx)
    case _ => true
  }

  /** Building a pattern fails only on a malformed regular expression. */
  datatype PatternError = BadExpression(expression: string)

  /**
   * The PropertyPattern constructor: compiling the expression throws on
   * malformed syntax, so the error surfaces at construction time.
   */
  function NewPropertyPattern(key: string, expression: string, rx: RegexEngine): (r: Result<Pattern, PatternError>)
    ensures r.Ok? <==> rx.wellFormed(expression)
    ensures r.Ok? ==> r.value.Property? && r.value.key == key && r.value.expression == expression
    ensures r.Err? ==> r.error.expression == expression
    ensures r.Ok? ==> WellFormed(r.value, rx)
  {
    if rx.wellFormed(expression) then Ok(Property(key, expression))
    else Err(BadExpression(expression))
  }

  /** The PropertyPattern built with no arguments. */
  function DefaultPropertyPattern(): Pattern
  {
    Property(WILDCARD, ".*")
  }

  /** The default arguments go through the same constructor and its error path. */
  lemma DefaultPropertyPatternIsConstructed(rx: RegexEngine)
    ensures rx.wellFormed(".*") ==> NewPropertyPattern(WILDCARD, ".*", rx) == Ok(DefaultPropertyPattern())
    ensures !rx.wellFormed(".*") ==> NewPropertyPattern(WILDCARD, ".*", rx).Err?
  {
  }

  /** Whether `expression` is found in at least one description of `ds`. */
  function AnyDescriptionMatches(ds: seq<(string, string)>, expression: string, rx: RegexEngine): (r: bool)
    ensures r <==> exists i :: 0 <= i < |ds| && rx.search(expression, ds[i].1)
  {
    if |ds| == 0 then false
    else rx.search(expression, ds[0].1) || AnyDescriptionMatches(ds[1..], expression, rx)
  }

  /** Squared Euclidean distance from a pattern's point to a location. */
  function SquaredDistance(x: int, y: int, z: int, p: Point): real
  {
    (p.x - x as real) * (p.x - x as real)
    + (p.y - y as real) * (p.y - y as real)
    + (p.z - z as real) * (p.z - z as real)
  }

  /** PropertyPattern's test. */
  function PropertyMatch(key: string, expression: string, d: ServiceDescription, rx: RegexEngine): bool
  {
    if key == WILDCARD then AnyDescriptionMatches(d.descriptions, expression, rx)
    else match Lookup(d.descriptions, key)
         case None => false
         case Some(v) => rx.search(expression, v)
  }

  /** PositionPattern's test, on exact reals: distance <= threshold, without the square root. */
  function PositionMatch(x: int, y: int, z: int, distance: real, d: ServiceDescription): bool
  {
    d.location.Some? && 0.0 <= distance &&
    SquaredDistance(x, y, z, d.location.value) <= distance * distance
  }

  /** `matchDescription`. */
  function Match(p: Pattern, d: ServiceDescription, rx: RegexEngine): bool
    decreases p
  {
    match p
    case Property(key, expression) => PropertyMatch(key, expression, d, rx)
    case Position(x, y, z, distance) => PositionMatch(x, y, z, distance, d)
    case FlagSet(flags) => HasAll(d.flags, flags)
    case Multi(patterns) => MatchAll(patterns, d, rx)
  }

  /** The sub-patterns are tried in order; the first failure decides (the order cannot be observed). */
  function MatchAll(ps: seq<Pattern>, d: ServiceDescription, rx: RegexEngine): (r: bool)
    decreases ps
    ensures r <==> forall i :: 0 <= i < |ps| ==> Match(ps[i], d, rx)
  {
    if |ps| == 0 then true
    else Match(ps[0], d, rx) && MatchAll(ps[1..], d, rx)
  }

  // ---------------------------------------------------------------------
  // PropertyPattern

  /** With the wildcard label, some description has to contain the expression. */
  lemma WildcardSearchesEveryDescription(expression: string, d: ServiceDescription, rx: RegexEngine)
    ensures Match(Property(WILDCARD, expression), d, rx) <==>
      exists i :: 0 <= i < |d.descriptions| && rx.search(expression, d.descriptions[i].1)
  {
  }

  /**
   * With any other label, only the last description stored under exactly
   * that label is searched; no entry under the label means no match.
   */
  lemma LabelIsComparedExactly(key: string, expression: string, d: ServiceDescription, rx: RegexEngine)
    requires key != WILDCARD
    ensures Match(Property(key, expression), d, rx) <==>
      exists i :: IsLast(d.descriptions, key, i) && rx.search(expression, d.descriptions[i].1)
  {
    var ds := d.descriptions;
    if Match(Property(key, expression), d, rx) {
      var r := Lookup(ds, key);
      var k :| IsLast(ds, key, k) && ds[k].1 == r.value;
      assert rx.search(expression, ds[k].1);
    }
    if exists i :: IsLast(ds, key, i) && rx.search(expression, ds[i].1) {
      var i :| IsLast(ds, key, i) && rx.search(expression, ds[i].1);
      LookupLast(ds, key, i);
    }
  }

  /** A labelled PropertyPattern sees nothing but the description under its label. */
  lemma LabelledMatchDependsOnlyOnLabel(key: string, expression: string, d: ServiceDescription, e: ServiceDescription, rx: RegexEngine)
    requires key != WILDCARD
    requires Lookup(d.descriptions, key) == Lookup(e.descriptions, key)
    ensures Match(Property(key, expression), d, rx) == Match(Property(key, expression), e, rx)
  {
  }

  /**
   * The default PropertyPattern (label "*", expression ".*") matches
   * exactly the services that have at least one description, given that
   * ".*" is found in every text.
   */
  lemma DefaultPropertyMatchesAnyDescribedService(d: ServiceDescription, rx: RegexEngine)
    requires forall text :: rx.search(".*", text)
    ensures DefaultPropertyPattern().key == WILDCARD && DefaultPropertyPattern().expression == ".*"
    ensures Match(DefaultPropertyPattern(), d, rx) <==> |d.descriptions| > 0
  {
    if |d.descriptions| > 0 {
      assert rx.search(".*", d.descriptions[0].1);
    }
  }

  // ---------------------------------------------------------------------
  // FlagPattern

  /** A FlagPattern over a combination of flags asks for every one of them. */
  lemma FlagPatternNeedsEveryFlag(s: set<Flag>, d: ServiceDescription, rx: RegexEngine)
    ensures Match(FlagSet(Mask(s)), d, rx) <==> forall f :: f in s ==> HasAll(d.flags, Bit(f))
  {
    HasAllOf(d.flags, s);
  }

  /** For a service advertising the flags `t`, FlagPattern(s) matches iff s is a subset of t. */
  lemma FlagPatternMatchesSuperset(s: set<Flag>, t: set<Flag>, d: ServiceDescription, rx: RegexEngine)
    requires d.flags == Mask(t)
    ensures Match(FlagSet(Mask(s)), d, rx) <==> s <= t
  {
    MaskSubset(s, t);
  }

  /** Extra flags on the service never stop a FlagPattern from matching. */
  lemma ExtraFlagsStillMatch(flags: FlagMask, extra: FlagMask, d: ServiceDescription, rx: RegexEngine)
    requires Match(FlagSet(flags), d, rx)
    ensures Match(FlagSet(flags), d.(flags := d.flags | extra), rx)
  {
  }

  // ---------------------------------------------------------------------
  // PositionPattern

  /**
   * When `r` is the Euclidean distance between the pattern's point and the
   * service's location, the pattern matches iff r is at most the threshold.
   */
  lemma PositionMatchesWithinDistance(x: int, y: int, z: int, distance: real, d: ServiceDescription, rx: RegexEngine, r: real)
    requires d.location.Some?
    requires 0.0 <= r && r * r == SquaredDistance(x, y, z, d.location.value)
    ensures Match(Position(x, y, z, distance), d, rx) <==> r <= distance
  {
    var sq := SquaredDistance(x, y, z, d.location.value);
    var threshold := distance * distance;
    var mixed := r * distance;
    if r <= distance {
      assert sq <= mixed <= threshold;
    } else if 0.0 <= distance {
      assert threshold <= mixed < sq;
    }
  }

  /** A service without a location never matches a PositionPattern. */
  lemma PositionNeedsLocation(x: int, y: int, z: int, distance: real, d: ServiceDescription, rx: RegexEngine)
    requires d.location.None?
    ensures !Match(Position(x, y, z, distance), d, rx)
  {
  }

  /** Widening the range keeps every service already matched. */
  lemma PositionRangeIsMonotone(x: int, y: int, z: int, near: real, far: real, d: ServiceDescription, rx: RegexEngine)
    requires near <= far
    requires Match(Position(x, y, z, near), d, rx)
    ensures Match(Position(x, y, z, far), d, rx)
  {
    assert near * near <= near * far <= far * far;
  }

  // ---------------------------------------------------------------------
  // MultiPattern

  /** A MultiPattern without sub-patterns matches every service. */
  lemma EmptyMultiMatchesAll(d: ServiceDescription, rx: RegexEngine)
    ensures Match(Multi([]), d, rx)
  {
  }

  /** Appending a sub-pattern adds one more conjunct. */
  lemma {:induction false} MatchAllAppend(ps: seq<Pattern>, q: Pattern, d: ServiceDescription, rx: RegexEngine)
    ensures MatchAll(ps + [q], d, rx) <==> MatchAll(ps, d, rx) && Match(q, d, rx)
  {
    if |ps| > 0 {
      assert (ps + [q])[1..] == ps[1..] + [q];
      MatchAllAppend(ps[1..], q, d, rx);
    }
  }

  /** So appending a sub-pattern can only shrink the set of matched services. */
  lemma AppendOnlyShrinks(ps: seq<Pattern>, q: Pattern, d: ServiceDescription, rx: RegexEngine)
    ensures Match(Multi(ps + [q]), d, rx) ==> Match(Multi(ps), d, rx)
  {
    MatchAllAppend(ps, q, d, rx);
  }

  /** Nesting one MultiPattern in another is the same as concatenating their lists. */
  lemma {:induction false} MatchAllConcat(ps: seq<Pattern>, qs: seq<Pattern>, d: ServiceDescription, rx: RegexEngine)
    ensures MatchAll(ps + qs, d, rx) <==> MatchAll(ps, d, rx) && MatchAll(qs, d, rx)
  {
    if |ps| == 0 {
      assert ps + qs == qs;
    } else {
      assert (ps + qs)[0] == ps[0];
      assert (ps + qs)[1..] == ps[1..] + qs;
      MatchAllConcat(ps[1..], qs, d, rx);
    }
  }

  /** A MultiPattern added as the last sub-pattern of another acts as if its list were appended. */
  lemma NestedMultiFlattens(ps: seq<Pattern>, qs: seq<Pattern>, d: ServiceDescription, rx: RegexEngine)
    ensures Match(Multi(ps + [Multi(qs)]), d, rx) <==> Match(Multi(ps + qs), d, rx)
  {
    MatchAllAppend(ps, Multi(qs), d, rx);
    MatchAllConcat(ps, qs, d, rx);
  }
}
