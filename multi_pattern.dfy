/**
 * MultiPattern as an object: its list of sub-patterns grows in place,
 * one `<<` at a time, and matching reads the list without changing it.
 */
module MultiPatterns {

  import opened Descriptions
  import opened Patterns

  class MultiPattern {
    /** The sub-patterns, in the order they were added. */
    var patterns: seq<Pattern>

    /** The pattern value this object currently stands for. */
    function AsPattern(): Pattern
      reads this
    {
      Multi(patterns)
    }

    /** A new MultiPattern has no sub-patterns, so it matches every service. */
    constructor ()
      ensures patterns == []
      ensures forall d: ServiceDescription, rx: RegexEngine :: Match(AsPattern(), d, rx)
    {
      patterns := [];
    }

    /**
     * `operator<<`: appends exactly one pattern at the end, keeps the earlier
     * entries in their order, and hands back this same object so that
     * calls can be chained.
     */
    method Add(p: Pattern) returns (self: MultiPattern)
      modifies this
      ensures patterns == old(patterns) + [p]
      ensures self == this
    {
      patterns := patterns + [p];
      self := this;
    }

    /**
     * `matchDescription`: tries the sub-patterns in the order they were
     * added and stops at the first that fails (a choice of this model; the
     * order cannot be observed).
     */
    method MatchDescription(d: ServiceDescription, rx: RegexEngine) returns (b: bool)
      ensures b <==> forall i :: 0 <= i < |patterns| ==> Match(patterns[i], d, rx)
      ensures b == Match(AsPattern(), d, rx)
    {
      var i := 0;
      while i < |patterns|
        invariant 0 <= i <= |patterns|
        invariant forall k :: 0 <= k < i ==> Match(patterns[k], d, rx)
      {
        if !Match(patterns[i], d, rx) {
          return false;
        }
        i := i + 1;
      }
      return true;
    }
  }

  /** `multi << p << f`: both land on `multi`, p first, then f. */
  method AddTwo(multi: MultiPattern, p: Pattern, f: Pattern) returns (r: MultiPattern)
    modifies multi
    ensures r == multi
    ensures multi.patterns == old(multi.patterns) + [p, f]
  {
    var m := multi.Add(p);
    r := m.Add(f);
  }

  /**
   * After a pattern is added, every service the MultiPattern still matches
   * was matched before and also matches the new pattern.
   */
  method AddNarrows(multi: MultiPattern, p: Pattern, d: ServiceDescription, rx: RegexEngine)
    returns (before: bool, after: bool)
    modifies multi
    ensures multi.patterns == old(multi.patterns) + [p]
    ensures before == Match(Multi(old(multi.patterns)), d, rx)
    ensures after == Match(multi.AsPattern(), d, rx)
    ensures after <==> before && Match(p, d, rx)
  {
    before := multi.MatchDescription(d, rx);
    var _ := multi.Add(p);
    after := multi.MatchDescription(d, rx);
    MatchAllAppend(old(multi.patterns), p, d, rx);
  }
}
