/** `should_include` (analyzer.py:83-111): whether a CSV row passes the
    command line's site, device, metric and date-range criteria. */
module RowFilter {
  import opened Wrappers
  import opened Text
  import opened Timestamp

  /** One `csv.DictReader` row; `value` is `None` when the row is short of that column. */
  datatype Reading = Reading(time: string, site: string, device: string, metric: string,
                             unit: string, value: Option<string>)

  /** The parsed command-line options: strings as given, dates already parsed. */
  datatype Criteria = Criteria(site: Option<string>, device: Option<string>, metric: Option<string>,
                               startDate: Option<DateTime>, endDate: Option<DateTime>)

  const NoCriteria := Criteria(None, None, None, None, None)

  /** Python truthiness of an optional string: `None` and `""` are both false. */
  predicate IsSet(c: Option<string>)
  {
    c.Some? && c.value != ""
  }

  predicate HasDateBound(c: Criteria)
  {
    c.startDate.Some? || c.endDate.Some?
  }

  function ShouldInclude(row: Reading, c: Criteria): (r: bool)
    ensures r ==> MatchesAll(row, c)
  {
    if IsSet(c.site) && row.site != c.site.value then false
    else if IsSet(c.device) && row.device != c.device.value then false
    else if IsSet(c.metric) && row.metric != c.metric.value then false
    else if HasDateBound(c) then
      match ParseDateTime(Strip(row.time))
      case None => false  // ValueError: a filter miss, not an error
      case Some(t) =>
        if c.startDate.Some? && Less(t, c.startDate.value) then false
        else if c.endDate.Some? && Less(c.endDate.value, t) then false
        else true
    else true
  }

  /** Exact match of one optional criterion. */
  predicate Matches(criterion: Option<string>, field: string)
  {
    criterion.Some? && criterion.value != "" ==> field == criterion.value
  }

  /** The site, device and metric criteria, combined with AND. */
  predicate MatchesAll(row: Reading, c: Criteria)
  {
    Matches(c.site, row.site) && Matches(c.device, row.device) && Matches(c.metric, row.metric)
  }

  /** `t` lies within [start, end], inclusive on each bound that is present. */
  predicate InRange(t: DateTime, c: Criteria)
  {
    (c.startDate.Some? ==> LessEq(c.startDate.value, t)) && (c.endDate.Some? ==> LessEq(t, c.endDate.value))
  }

  /** Without a date bound a row is included exactly when its site, device
      and metric match, and its timestamp is never looked at. */
  lemma NoDateBoundIgnoresTime(row: Reading, c: Criteria, otherTime: string)
    requires !HasDateBound(c)
    ensures ShouldInclude(row, c) <==> MatchesAll(row, c)
    ensures ShouldInclude(row.(time := otherTime), c) == ShouldInclude(row, c)
  {
  }

  /** With a date bound a row is included exactly when it matches, its trimmed
      timestamp parses, and the instant lies within the bounds. */
  lemma DateBoundIncludes(row: Reading, c: Criteria)
    requires HasDateBound(c)
    ensures ShouldInclude(row, c) <==>
            MatchesAll(row, c) && ParseDateTime(Strip(row.time)).Some?
            && InRange(ParseDateTime(Strip(row.time)).value, c)
  {
    match ParseDateTime(Strip(row.time))
    case None =>
    case Some(t) =>
      if c.startDate.Some? { LessEqIsTotalOrder(t, c.startDate.value, t); }
      if c.endDate.Some? { LessEqIsTotalOrder(c.endDate.value, t, t); }
  }

  /** A timestamp that does not parse excludes the row exactly when a date bound is set. */
  lemma UnparsableTimeExcludes(row: Reading, c: Criteria)
    requires ParseDateTime(Strip(row.time)).None?
    ensures ShouldInclude(row, c) <==> !HasDateBound(c) && MatchesAll(row, c)
  {
  }

  /** A criterion that is absent or empty never excludes a row: the row's
      field for it may be anything. */
  lemma UnsetCriterionIgnored(row: Reading, c: Criteria, other: string)
    ensures !IsSet(c.site) ==> ShouldInclude(row.(site := other), c) == ShouldInclude(row, c)
    ensures !IsSet(c.device) ==> ShouldInclude(row.(device := other), c) == ShouldInclude(row, c)
    ensures !IsSet(c.metric) ==> ShouldInclude(row.(metric := other), c) == ShouldInclude(row, c)
  {
  }

  /** The empty criteria let everything through, and any criteria only narrow them. */
  lemma FilterNarrows(row: Reading, c: Criteria)
    ensures ShouldInclude(row, NoCriteria)
    ensures ShouldInclude(row, c) ==> ShouldInclude(row, NoCriteria)
  {
  }
}
