/** The level-to-flags mapping of lib/logging.js.

    `configureLogger` walks a `switch` whose cases fall through: entering at
    a level switches that level's flag on and every case below it too, so a
    more verbose level always enables everything a quieter one does. Handing
    the flags to the logging library is not modelled.
 */
module Logging {
  import opened Wire

  datatype Flags = Flags(error: bool, warn: bool, info: bool, verbose: bool)

  const AllOff := Flags(false, false, false, false)

  /** The case labels in source order; `'off'` shares the empty body of `default`. */
  const Cases: seq<string> := ["verbose", "info", "warn", "error", "off"]

  /** Where control enters the `switch`: the first matching case, or past
      every case body for `default`. */
  function EntryCase(level: string): (i: nat)
    ensures i <= |Cases|
    ensures i < |Cases| ==> Cases[i] == level
    ensures i == |Cases| <==> level !in Cases
  {
    if level == "verbose" then 0
    else if level == "info" then 1
    else if level == "warn" then 2
    else if level == "error" then 3
    else if level == "off" then 4
    else 5
  }

  /** The body of case `i`. */
  function CaseBody(i: nat, f: Flags): Flags {
    if i == 0 then f.(verbose := true)
    else if i == 1 then f.(info := true)
    else if i == 2 then f.(warn := true)
    else if i == 3 then f.(error := true)
    else f
  }

  /** Runs the case bodies from `i` to the end of the `switch`. */
  function FallThrough(i: nat, f: Flags): (r: Flags)
    ensures r.verbose == (f.verbose || i <= 0)
    ensures r.info == (f.info || i <= 1)
    ensures r.warn == (f.warn || i <= 2)
    ensures r.error == (f.error || i <= 3)
    decreases |Cases| - i
  {
    if i >= |Cases| then f else FallThrough(i + 1, CaseBody(i, f))
  }

  /** `configureLogger`; None stands for an omitted `logLevel`. */
  function ConfigureLogger(logLevel: Option<string>): (f: Flags)
    ensures f.verbose ==> f.info
    ensures f.info ==> f.warn
    ensures f.warn ==> f.error
    ensures logLevel.None? ==> f == Flags(true, true, false, false)
  {
    var level := match logLevel case None => "warn" case Some(l) => l;
    FallThrough(EntryCase(level), AllOff)
  }

  /** An independent reading of the levels: how many flags each one enables. */
  function Rank(level: string): nat {
    if level == "verbose" then 4
    else if level == "info" then 3
    else if level == "warn" then 2
    else if level == "error" then 1
    else 0
  }

  /** Each flag is on exactly when the level ranks at least as high as it. */
  lemma FlagsFollowRank(level: string)
    ensures var f := ConfigureLogger(Some(level));
            && (f.error <==> Rank(level) >= 1)
            && (f.warn <==> Rank(level) >= 2)
            && (f.info <==> Rank(level) >= 3)
            && (f.verbose <==> Rank(level) >= 4)
  {
  }

  /** The five documented levels, the default, and everything else. */
  lemma NamedLevels(other: string)
    requires other !in Cases
    ensures ConfigureLogger(Some("verbose")) == Flags(true, true, true, true)
    ensures ConfigureLogger(Some("info")) == Flags(true, true, true, false)
    ensures ConfigureLogger(Some("warn")) == Flags(true, true, false, false)
    ensures ConfigureLogger(Some("error")) == Flags(true, false, false, false)
    ensures ConfigureLogger(Some("off")) == AllOff
    ensures ConfigureLogger(None) == Flags(true, true, false, false)
    ensures ConfigureLogger(Some(other)) == AllOff
  {
  }

  /** A higher level enables everything a lower one does. */
  lemma MonotoneInLevel(lower: string, higher: string)
    requires Rank(lower) <= Rank(higher)
    ensures var lo := ConfigureLogger(Some(lower));
            var hi := ConfigureLogger(Some(higher));
            && (lo.error ==> hi.error) && (lo.warn ==> hi.warn)
            && (lo.info ==> hi.info) && (lo.verbose ==> hi.verbose)
  {
    FlagsFollowRank(lower);
    FlagsFollowRank(higher);
  }
}
