/**
 * Log: the syslog-style logging front end over a glog sink. log_init maps a
 * syslog level onto glog's minimum severity and sets glog's flags; log_api
 * and log_api_if format the message into a fixed buffer and hand it to glog
 * at the severity that the syslog priority selects.
 *
 * glog's flags are the fields of GlogFlags. Formatting is outside the model:
 * the text vsnprintf would produce is a parameter, and only its truncation
 * to the buffer is modelled. What the sink does with a record is not modelled.
 */
module LogModel {
  import opened Wrappers

  // syslog priorities, most urgent first
  const Emerg := 0
  const Alert := 1
  const Crit := 2
  const Err := 3
  const Warning := 4
  const Notice := 5
  const Info := 6
  const Debug := 7

  /** glog severities. */
  datatype Severity = INFO | WARNING | ERROR | FATAL

  /** glog's number for a severity, the scale FLAGS_minloglevel is measured on. */
  function Rank(s: Severity): (n: nat)
    ensures n <= 3
  {
    match s
    case INFO => 0
    case WARNING => 1
    case ERROR => 2
    case FATAL => 3
  }

  /** The FLAGS_minloglevel that log_init derives from a syslog level. */
  function MinLogLevel(logLevel: int): (m: nat)
    ensures m <= 3
    ensures logLevel < Crit ==> m == 0
  {
    if logLevel >= Info then 0
    else if logLevel >= Warning then 1
    else if logLevel >= Err then 2
    else if logLevel >= Crit then 3
    else 0
  }

  /** The severity log_api logs a priority at; None for a priority past LOG_DEBUG, which is dropped. */
  function SeverityFor(priority: int): (s: Option<Severity>)
    ensures s.None? <==> priority > Debug
    ensures s.Some? ==> (Rank(s.value) == 3 <==> priority <= Crit)
  {
    if priority <= Crit then Some(FATAL)
    else if priority <= Err then Some(ERROR)
    else if priority <= Notice then Some(WARNING)
    else if priority <= Debug then Some(INFO)
    else None
  }

  /** Whether glog, after log_init(logLevel), lets a record of this priority through. */
  predicate Passes(priority: int, logLevel: int)
  {
    SeverityFor(priority).Some? && Rank(SeverityFor(priority).value) >= MinLogLevel(logLevel)
  }

  /**
   * The two tables agree: once log_init has set a syslog level of LOG_CRIT
   * or above, every priority at least as urgent as that level is logged,
   * and beyond it only the priorities that share its glog severity
   * (LOG_NOTICE at LOG_WARNING, LOG_DEBUG at LOG_INFO). A level below
   * LOG_CRIT falls back to logging everything.
   */
  lemma {:induction false} PassesIffUrgent(priority: int, logLevel: int)
    requires priority <= Debug
    ensures logLevel >= Crit ==>
      (Passes(priority, logLevel) <==>
         priority <= logLevel || (logLevel == Warning && priority == Notice) || (logLevel == Info && priority == Debug))
    ensures logLevel < Crit ==> Passes(priority, logLevel)
  {
  }

  const MaxLogBufSize: nat := 16 * 1024 - 2

  /** What vsnprintf(buf, MAX_LOG_BUF_SIZE, ...) leaves in buf: the text, cut to leave room for the terminator. */
  function Formatted(text: string): (msg: string)
    ensures msg <= text && |msg| < MaxLogBufSize
    ensures |text| < MaxLogBufSize ==> msg == text
    ensures |text| >= MaxLogBufSize ==> |msg| == MaxLogBufSize - 1
  {
    if |text| < MaxLogBufSize then text else text[..MaxLogBufSize - 1]
  }

  /** A record handed to the glog sink. */
  datatype Record = Record(severity: Severity, msg: string)

  /** log_api: the record passed on, or None when the priority selects no severity. */
  function LogApi(priority: int, text: string): (r: Option<Record>)
    ensures r.None? <==> priority > Debug
    ensures r.Some? ==> SeverityFor(priority) == Some(r.value.severity)
    ensures r.Some? ==> r.value.msg <= text && |r.value.msg| <= MaxLogBufSize - 1
  {
    match SeverityFor(priority)
    case None => None
    case Some(s) => Some(Record(s, Formatted(text)))
  }

  /** log_api_if: the same table, and the record is logged only when the condition holds. */
  function LogApiIf(priority: int, condition: bool, text: string): (r: Option<Record>)
    ensures condition ==> r == LogApi(priority, text)
    ensures !condition ==> r == None
  {
    if condition then LogApi(priority, text) else None
  }

  /** glog's global flags that log_init writes. */
  class GlogFlags {
    var minLogLevel: int              // FLAGS_minloglevel
    var logDir: string                // FLAGS_log_dir
    var syslogFacility: int           // FLAGS_syslog_facility
    var programName: Option<string>   // the name given to InitGoogleLogging, None before

    constructor (minLogLevel: int, logDir: string, syslogFacility: int)
      ensures this.minLogLevel == minLogLevel && this.logDir == logDir
      ensures this.syslogFacility == syslogFacility && programName == None
    {
      this.minLogLevel := minLogLevel;
      this.logDir := logDir;
      this.syslogFacility := syslogFacility;
      programName := None;
    }

    /**
     * log_init: sets the minimum severity from the syslog level, the log
     * directory only when one is given, the facility always, and starts
     * logging under the module name or "./log". Always succeeds.
     */
    method LogInit(logLevel: int, moduleName: string, dir: string, facility: int) returns (ok: bool)
      modifies this
      ensures ok
      ensures minLogLevel == MinLogLevel(logLevel)
      ensures dir != [] ==> logDir == dir
      ensures dir == [] ==> logDir == old(logDir)
      ensures syslogFacility == facility
      ensures programName == Some(if moduleName != [] then moduleName else "./log")
    {
      minLogLevel := MinLogLevel(logLevel);
      if dir != [] {
        logDir := dir;
      }
      syslogFacility := facility;
      if moduleName != [] {
        programName := Some(moduleName);
      } else {
        programName := Some("./log");
      }
      ok := true;
    }

    /** Whether glog, with these flags, writes the record out. */
    predicate Emits(r: Record)
      reads this
    {
      Rank(r.severity) >= minLogLevel
    }
  }

  /**
   * The logging test: after log_init(LOG_DEBUG, "", "./log", LOG_LOCAL6),
   * debug messages come out at INFO and are emitted, and a log_info_if
   * whose condition is false logs nothing.
   */
  method RawTestExample() returns (debugRecord: Option<Record>, emitted: bool, silent: Option<Record>)
    ensures debugRecord == Some(Record(INFO, "log_debug msg"))
    ensures emitted
    ensures silent == None
  {
    var flags := new GlogFlags(2, "", 0);
    var ok := flags.LogInit(Debug, "", "./log", 22 * 8);
    assert flags.minLogLevel == 0 && flags.programName == Some("./log");
    debugRecord := LogApi(Info, "log_debug msg");   // log_debug uses LOG_INFO
    emitted := flags.Emits(debugRecord.value);
    silent := LogApiIf(Info, 1 < 0, "you should no see this info msg");
  }
}
