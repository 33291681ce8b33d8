# ServicePattern: filters over discovered service descriptions

This project models the ServicePattern family of the service-discovery
library: side-effect-free predicates that decide whether a discovered
service's description belongs to a query.

- **PropertyPattern(label, expression)** searches one description, the
  one stored under `label`, with a POSIX extended regular expression. The
  label `"*"` searches every description instead. Labels are compared as
  plain strings. The defaults are label `"*"` and expression `".*"`.
  Compiling a malformed expression fails when the pattern is built.
- **PositionPattern(x, y, z, distance)** keeps the services whose
  location lies within `distance` of the point.
- **FlagPattern(flags)** keeps the services that advertise every bit of
  `flags`. The flags are the bit constants `BUSY = 1`, `READY = 2`,
  `SLAM = 4`, `MANIPULATOR = 8` and `REMOTE = 16`.
- **MultiPattern** is the conjunction of the sub-patterns added to it with
  `<<`.

Layout:

- `wrappers.dfy`: `Option` and `Result`.
- `flags.dfy`: module `ServiceFlags`, covering the flag constants, masks
  and the bit facts about them.
- `description.dfy`: module `Descriptions`. It holds the abstract service
  description: (label, description) pairs, a flag mask and an optional
  location. It also defines the label lookup, where a later entry
  overrides an earlier one.
- `patterns.dfy`: module `Patterns`. It defines the `Pattern` datatype,
  its `Match` (`matchDescription`), the PropertyPattern constructor with
  its error path, and the lemmas about each kind of pattern.
- `multi_pattern.dfy`: module `MultiPatterns`. The class `MultiPattern`
  has a `patterns` sequence that `Add` (`operator<<`) extends in place.
  `MatchDescription` reads the sequence and changes nothing.

The source shows only declarations and documentation; the bodies of
`matchDescription` live in a file that is not part of this model. The
matching rules are taken from the header's documentation. The header
leaves four points open, and the model settles them as follows. A label
lookup is last-write-wins, so a later entry overrides an earlier one.
Missing data (no entry under the label, no location) means no match,
never an error, because matching returns only a boolean. The distance
boundary is inclusive, since a service at exactly the given distance is
"in range".
The sub-patterns of a MultiPattern are tried in the order they were
added, stopping at the first that fails. The order cannot be observed,
because every `matchDescription` is `const` and returns only a boolean.

The regular-expression library is a parameter, `RegexEngine`, with two
fields: `wellFormed` (can the expression be compiled) and `search` (is
the expression found in a text). Every pattern result is therefore
stated for any engine.

## Model

| member | source | states |
|---|---|---|
| ServiceFlags.Bit | src/ServicePattern.h:24-30 | no contract; the value of each enumerator, characterised by FlagsAreDisjointBits |
| ServiceFlags.Mask | src/ServicePattern.h:24-30 | no contract; the or of a set of flags, characterised by MaskHasFlag, MaskInjective and MaskSubset |
| ServiceFlags.HasAll | src/ServicePattern.h:105-115 | no contract; FlagPattern's bit test, characterised by HasAllOf, FlagPatternNeedsEveryFlag and ExtraFlagsStillMatch |
| ServiceFlags.FlagsAreDisjointBits | src/ServicePattern.h:24-30 | every flag constant is a single bit, and two flags share a bit iff they are the same flag |
| ServiceFlags.MaskHasFlag | src/ServicePattern.h:24-30 | a combination of flags has a flag's bit iff that flag was combined into it, and has none of its bit otherwise |
| ServiceFlags.MaskInjective | src/ServicePattern.h:21-30 | two combinations of flags give the same mask iff they combine the same flags |
| ServiceFlags.HasAllOf | src/ServicePattern.h:105-110 | a mask has every bit of a flag combination iff it has the bit of each flag in the combination |
| ServiceFlags.MaskSubset | src/ServicePattern.h:105-110 | the mask of the flags t has all bits of the mask of the flags s iff s is a subset of t |
| Descriptions.Lookup | src/ServicePattern.h:58-59 | lookup under a label finds nothing iff no entry has exactly that label; a found description is the one in the last entry with that label |
| Descriptions.LookupLast | src/ServicePattern.h:58-59 | whichever entry is the last with a label, lookup under that label returns its description |
| Patterns.Match | src/ServicePattern.h:50 | no contract; `matchDescription`, dispatching to the test of each kind of pattern, characterised by the lemmas below |
| Patterns.PropertyMatch | src/ServicePattern.h:58-75 | no contract; PropertyPattern's test, characterised by WildcardSearchesEveryDescription, LabelIsComparedExactly and LabelledMatchDependsOnlyOnLabel |
| Patterns.PositionMatch | src/ServicePattern.h:87-96 | no contract; PositionPattern's test, characterised by PositionMatchesWithinDistance, PositionNeedsLocation and PositionRangeIsMonotone |
| Patterns.DefaultPropertyPattern | src/ServicePattern.h:70 | no contract; the pattern with the default arguments, characterised by DefaultPropertyPatternIsConstructed and DefaultPropertyMatchesAnyDescribedService |
| Patterns.NewPropertyPattern | src/ServicePattern.h:69-71 | building a PropertyPattern succeeds iff the expression is well formed; it then keeps the label and expression given and yields a `WellFormed` pattern, and otherwise reports that expression |
| Patterns.AnyDescriptionMatches | src/ServicePattern.h:67 | true iff the expression is found in at least one description of the list |
| Patterns.MatchAll | src/ServicePattern.h:123-127 | a list of sub-patterns matches iff every sub-pattern in it matches |
| Patterns.WildcardSearchesEveryDescription | src/ServicePattern.h:67 | with label "*", a PropertyPattern matches iff its expression is found in some description of the service |
| Patterns.LabelIsComparedExactly | src/ServicePattern.h:58-65 | with any other label, a PropertyPattern matches iff some entry is the last whose label equals it exactly and its expression is found in that entry's description |
| Patterns.LabelledMatchDependsOnlyOnLabel | src/ServicePattern.h:58-59 | two services with the same description under the label get the same answer from a labelled PropertyPattern |
| Patterns.DefaultPropertyMatchesAnyDescribedService | src/ServicePattern.h:70-71 | the default PropertyPattern has label "*" and expression ".*", and, when ".*" is found in every text, it matches exactly the services that have at least one description |
| Patterns.FlagPatternNeedsEveryFlag | src/ServicePattern.h:105-112 | a FlagPattern over a flag combination matches iff the service has the bit of every flag in it |
| Patterns.FlagPatternMatchesSuperset | src/ServicePattern.h:105-119 | for a service advertising the flags t, FlagPattern over the flags s matches iff s is a subset of t |
| Patterns.ExtraFlagsStillMatch | src/ServicePattern.h:108-109 | a service that matches a FlagPattern still matches it with any further flags set |
| Patterns.PositionMatchesWithinDistance | src/ServicePattern.h:87-100 | when r is the Euclidean distance from the pattern's point to the location, a PositionPattern matches iff r is at most its distance, boundary included |
| Patterns.PositionNeedsLocation | src/ServicePattern.h:87-96 | a service without a location never matches a PositionPattern |
| Patterns.PositionRangeIsMonotone | src/ServicePattern.h:87-89 | raising the distance keeps every service already in range |
| Patterns.EmptyMultiMatchesAll | src/ServicePattern.h:123-127 | a MultiPattern with no sub-patterns matches every service |
| Patterns.MatchAllAppend | src/ServicePattern.h:144-147 | the list with one more pattern at the end matches iff the old list matches and the new pattern matches |
| Patterns.AppendOnlyShrinks | src/ServicePattern.h:126-127 | appending a sub-pattern never adds a matched service |
| Patterns.MatchAllConcat | src/ServicePattern.h:123-127 | the concatenation of two sub-pattern lists matches iff each list matches |
| Patterns.NestedMultiFlattens | src/ServicePattern.h:138-150 | a MultiPattern added as the last sub-pattern of another matches like appending its list to the other's |
| Patterns.DefaultPropertyPatternIsConstructed | src/ServicePattern.h:70-71 | the default arguments "*" and ".*" go through the PropertyPattern constructor: it yields the default pattern when ".*" is well formed and fails otherwise |
| MultiPatterns.MultiPattern.constructor | src/ServicePattern.h:139 | a new MultiPattern has no sub-patterns and so matches every service |
| MultiPatterns.MultiPattern.Add | src/ServicePattern.h:144-147 | `<<` appends exactly the given pattern at the end, keeps the earlier entries and their order, and returns the same object |
| MultiPatterns.MultiPattern.MatchDescription | src/ServicePattern.h:142 | matching is true iff every sub-pattern matches, and equals the match of the pattern value the object stands for; it changes nothing |
| MultiPatterns.AddTwo | src/ServicePattern.h:129-134 | `multi << p << f` appends p and then f to the same MultiPattern |
| MultiPatterns.AddNarrows | src/ServicePattern.h:144-147 | `before` and `after` are the MultiPattern's match results on the old and the new list, and after an add it matches a service iff it matched before and the added pattern matches |

## Left out

- `castFlags` (src/ServicePattern.h:35) is only declared. Its string encoding of flags is not shown, so it is not modelled.
- ServiceConfiguration.h, which defines `ServiceDescription`, is not part of this model. The description is reduced to its labelled descriptions, a decoded flag mask and an optional decoded location. How the flags and the location are decoded from the properties is not modelled.
- Regular expressions: boost::regex with POSIX extended syntax is a foreign library. It stays an abstract engine parameter, so no result depends on what a particular expression matches.
- Patterns.PositionMatchesWithinDistance: the test uses exact real arithmetic (squared distance against squared threshold). It does not model `double` rounding, the conversion of the `int` coordinates, an infinite threshold (which would match every service with a location) or a NaN threshold (which would match nothing). A negative threshold matches nothing.
- Patterns.DefaultPropertyMatchesAnyDescribedService: the default PropertyPattern does not match a service with no descriptions, because `"*"` searches each description and there is none.
- MultiPattern holds non-owning pointers to its sub-patterns. The model holds pattern values, so nothing here covers a later change to a sub-pattern that is itself a MultiPattern (aliasing), or a dangling pointer.
- Thread safety of concurrent matching is not modelled. It holds trivially because matching is a function that reads nothing mutable.
- Publishing (src/afLocalService.h), the Avahi service wrapper (src/impl/avahi/Service.hpp), the client and its threaded poll (src/client.cpp), the poll interface (src/afPoll.h) and the example programs are daemon I/O, concurrency plumbing or demos. They are not modelled.
- ServiceBrowser and ServiceDiscovery (live set, deduplication, event merging) are outside this model.
- A service's flag mask is always present: a service without a flags property reads as the empty mask 0, which `FlagPattern(0)` matches.
