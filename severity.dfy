/**
 * callisto-util-logging severity: the log levels, most severe first, and
 * the numeric severity of each.
 */
module Severity {
  /** `logLevels`: all log levels from most severe to least severe. */
  const LogLevels: seq<string> := ["error", "warn", "info", "verbose", "debug", "silly"]

  /** `severity`: the numeric severity of each level. */
  const SeverityOf: map<string, nat> :=
    map["error" := 60, "warn" := 50, "info" := 40, "verbose" := 30, "debug" := 20, "silly" := 10]

  /** Six levels, each listed once. */
  lemma LevelsListedOnce()
    ensures |LogLevels| == 6
    ensures forall i, j :: 0 <= i < j < |LogLevels| ==> LogLevels[i] != LogLevels[j]
  {
  }

  /** The table has a severity for exactly the listed levels. */
  lemma SeverityCoversLevels()
    ensures SeverityOf.Keys == set i | 0 <= i < |LogLevels| :: LogLevels[i]
  {
    assert SeverityOf.Keys == {"error", "warn", "info", "verbose", "debug", "silly"};
    assert LogLevels[0] == "error" && LogLevels[1] == "warn" && LogLevels[2] == "info";
    assert LogLevels[3] == "verbose" && LogLevels[4] == "debug" && LogLevels[5] == "silly";
  }

  /** Severity strictly decreases along the list: most severe first. */
  lemma SeverityDecreasing()
    ensures forall i :: 0 <= i < |LogLevels| ==> LogLevels[i] in SeverityOf
    ensures forall i, j :: 0 <= i < j < |LogLevels| ==> SeverityOf[LogLevels[i]] > SeverityOf[LogLevels[j]]
  {
  }

  /** No two levels share a severity. */
  lemma SeveritiesDistinct()
    ensures forall a, b :: a in SeverityOf && b in SeverityOf && a != b ==> SeverityOf[a] != SeverityOf[b]
  {
  }
}
