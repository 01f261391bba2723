/** The logger's level filter: five levels in a total order and the threshold
    test every `error`/`warn`/`info`/`debug` call goes through. Console
    output itself is not modelled. */
module Logger {

  datatype LogLevel = None | Error | Warn | Info | Debug

  /** The numeric table the logger compares. */
  function Rank(l: LogLevel): (r: nat)
    ensures r <= 4
  {
    match l
    case None => 0
    case Error => 1
    case Warn => 2
    case Info => 3
    case Debug => 4
  }

  /** The level a logger gets when none is configured. */
  const DefaultLevel: LogLevel := Info

  /** A logger configured with a threshold. */
  datatype Logger = Logger(level: LogLevel)

  /** Whether a message at `level` reaches the console of a logger whose
      threshold is `threshold`. */
  function ShouldLog(level: LogLevel, threshold: LogLevel): (b: bool)
    ensures IsMessageLevel(level) ==> (b <==> level in EnabledAt(threshold))
    ensures level == None ==> b
  {
    Rank(level) <= Rank(threshold)
  }

  /** The four message-emitting methods of the logger (there is no `none`
      method). */
  predicate IsMessageLevel(l: LogLevel)
  {
    l != None
  }

  /** An independent, enumerated table of the message levels each threshold
      lets through. */
  function EnabledAt(threshold: LogLevel): set<LogLevel>
  {
    match threshold
    case None => {}
    case Error => {Error}
    case Warn => {Error, Warn}
    case Info => {Error, Warn, Info}
    case Debug => {Error, Warn, Info, Debug}
  }

  /** Whether the logger emits a message of the given level. */
  predicate Emits(lg: Logger, level: LogLevel)
  {
    ShouldLog(level, lg.level)
  }

  /** Ranks are distinct, so the order on levels is total and antisymmetric. */
  lemma RankInjective(a: LogLevel, b: LogLevel)
    ensures Rank(a) == Rank(b) <==> a == b
  {
  }

  /** Threshold `none` silences every message method. */
  lemma NoneSilencesAll(level: LogLevel)
    requires IsMessageLevel(level)
    ensures !Emits(Logger(None), level)
  {
  }

  /** Threshold `debug` lets every level through. */
  lemma DebugEmitsAll(level: LogLevel)
    ensures Emits(Logger(Debug), level)
  {
  }

  /** Raising the threshold never suppresses a message that was emitted. */
  lemma Monotonic(level: LogLevel, t: LogLevel, t': LogLevel)
    requires ShouldLog(level, t)
    requires Rank(t) <= Rank(t')
    ensures ShouldLog(level, t')
  {
  }

  /** A message level is always emitted at its own threshold, and a level is
      emitted at a threshold only when every lower-ranked level is too. */
  lemma DownwardClosed(level: LogLevel, lower: LogLevel, t: LogLevel)
    requires ShouldLog(level, t)
    requires Rank(lower) <= Rank(level)
    ensures ShouldLog(lower, t)
    ensures ShouldLog(t, t)
  {
  }

  /** By default, errors, warnings and info messages are emitted and debug
      messages are suppressed. */
  lemma DefaultSuppressesDebug()
    ensures !Emits(Logger(DefaultLevel), Debug)
    ensures Emits(Logger(DefaultLevel), Error)
    ensures Emits(Logger(DefaultLevel), Warn)
    ensures Emits(Logger(DefaultLevel), Info)
  {
  }
}
