/**
 * Setting: the process-wide configuration holder. It keeps the parsed
 * configuration file and a list of named callbacks that are run against
 * every configuration that a runtime update loads successfully.
 *
 * Reading and parsing the file is outside the model: each load is given as
 * an Option, None for a file that could not be read or parsed. The clock is
 * the parameter `now`. The mutex is left out, since the model is sequential.
 */
module SettingModel {
  import opened Wrappers

  /** The sum of the callbacks' results on cfg, in registration order. */
  function SumCallbacks<Config>(calls: seq<(string, Config -> int)>, cfg: Config): int
  {
    if calls == [] then 0
    else SumCallbacks(calls[..|calls| - 1], cfg) + calls[|calls| - 1].1(cfg)
  }

  /** The sum over two lists of callbacks is the sum of their sums. */
  lemma {:induction false} SumCallbacksAppend<Config>(a: seq<(string, Config -> int)>, b: seq<(string, Config -> int)>, cfg: Config)
    ensures SumCallbacks(a + b, cfg) == SumCallbacks(a, cfg) + SumCallbacks(b, cfg)
    decreases |b|
  {
    if b != [] {
      var b' := b[..|b| - 1];
      assert (a + b)[..|a + b| - 1] == a + b';
      SumCallbacksAppend(a, b', cfg);
    } else {
      assert a + b == a;
    }
  }

  /** The decimal digits of n, as operator<< on an int writes them. */
  function Decimal(n: nat): (s: seq<char>)
    ensures |s| >= 1 && forall i :: 0 <= i < |s| ==> '0' <= s[i] <= '9'
  {
    var d := [(n % 10) as char + '0'];
    if n < 10 then d else Decimal(n / 10) + d
  }

  /** The number a string of decimal digits spells. */
  function DecimalValue(s: seq<char>): nat
  {
    if s == [] then 0
    else
      var d := s[|s| - 1] as int - '0' as int;
      DecimalValue(s[..|s| - 1]) * 10 + (if 0 <= d < 10 then d else 0)
  }

  /** Reading the digits back gives the number. */
  lemma {:induction false} DecimalRoundTrip(n: nat)
    ensures DecimalValue(Decimal(n)) == n
  {
    var s := Decimal(n);
    if n >= 10 {
      assert s[..|s| - 1] == Decimal(n / 10);
      DecimalRoundTrip(n / 10);
    }
  }

  const StatusHeader: seq<char> := "attached runtime update: \n"

  /** The report line of the callback numbered `index`. */
  function StatusLine(index: nat, name: seq<char>): seq<char>
  {
    "\t" + Decimal(index) + ". " + name + "\n"
  }

  /** The numbered lines of all the callbacks, numbering from 1. */
  function StatusLines<Config>(calls: seq<(string, Config -> int)>): seq<char>
  {
    if calls == [] then []
    else StatusLines(calls[..|calls| - 1]) + StatusLine(|calls|, calls[|calls| - 1].0)
  }

  /** Registering one more callback adds exactly its own numbered line to the report. */
  lemma {:induction false} StatusLinesAppend<Config>(calls: seq<(string, Config -> int)>, c: (string, Config -> int))
    ensures StatusLines(calls + [c]) == StatusLines(calls) + StatusLine(|calls| + 1, c.0)
  {
    assert (calls + [c])[..|calls|] == calls;
  }

  /** The report on the first j callbacks is the start of the report on all of them. */
  lemma {:induction false} StatusLinesPrefix<Config>(calls: seq<(string, Config -> int)>, j: nat)
    requires j <= |calls|
    ensures StatusLines(calls[..j]) <= StatusLines(calls)
    decreases |calls|
  {
    var n := |calls|;
    if j < n {
      var init := calls[..n - 1];
      assert init[..j] == calls[..j];
      StatusLinesPrefix(init, j);
    } else {
      assert calls[..j] == calls;
    }
  }

  /** Every callback's name appears in the report, on the line carrying its number, after the lines of those before it. */
  lemma {:induction false} StatusLinesMention<Config>(calls: seq<(string, Config -> int)>, i: nat)
    requires i < |calls|
    ensures StatusLines(calls[..i]) + StatusLine(i + 1, calls[i].0) <= StatusLines(calls)
  {
    StatusLinesPrefix(calls, i + 1);
    assert calls[..i + 1][..i] == calls[..i];
  }

  class Setting<Config> {
    var cfgFile: string                    // cfg_file_
    var settingPtr: Option<Config>         // setting_ptr_, None while empty
    var lastUpdateTime: int                // last_update_time_
    var inProcess: bool                    // in_process_
    var calls: seq<(string, Config -> int)>   // calls_

    constructor ()
      ensures cfgFile == [] && settingPtr == None && lastUpdateTime == 0
      ensures !inProcess && calls == []
    {
      cfgFile := [];
      settingPtr := None;
      lastUpdateTime := 0;
      inProcess := false;
      calls := [];
    }

    /** init: records the file name and keeps its parse, failing when there is none. */
    method Init(file: string, loaded: Option<Config>) returns (ok: bool)
      modifies this
      ensures ok <==> loaded.Some?
      ensures cfgFile == file && settingPtr == loaded
      ensures lastUpdateTime == old(lastUpdateTime) && inProcess == old(inProcess) && calls == old(calls)
    {
      cfgFile := file;
      settingPtr := loaded;
      ok := settingPtr.Some?;
    }

    /**
     * update_runtime_setting: -1 when no file is set; 0 while an update is
     * in process or when the reload fails, keeping the old configuration;
     * otherwise installs the new configuration, stamps the time and returns
     * the sum of every callback's result on it.
     */
    method UpdateRuntimeSetting(loaded: Option<Config>, now: int) returns (ret: int)
      modifies this
      ensures cfgFile == old(cfgFile) && calls == old(calls)
      ensures cfgFile == [] ==> ret == -1
      ensures cfgFile == [] || old(inProcess) || loaded.None? ==>
                settingPtr == old(settingPtr) && lastUpdateTime == old(lastUpdateTime)
      ensures inProcess == old(inProcess)
      ensures cfgFile != [] && old(inProcess) ==> ret == 0
      ensures cfgFile != [] && !old(inProcess) && loaded.None? ==> ret == 0
      ensures cfgFile != [] && !old(inProcess) && loaded.Some? ==>
                settingPtr == loaded && lastUpdateTime == now && ret == SumCallbacks(calls, loaded.value)
    {
      if cfgFile == [] {
        return -1;
      }
      if inProcess {
        return 0;
      }
      if loaded.None? {
        inProcess := false;
        return 0;
      }
      settingPtr := loaded;
      lastUpdateTime := now;
      var cfg := loaded.value;
      ret := 0;
      for i := 0 to |calls|
        invariant ret == SumCallbacks(calls[..i], cfg)
      {
        assert calls[..i + 1][..i] == calls[..i];
        ret := ret + calls[i].1(cfg);
      }
      assert calls[..|calls|] == calls;
      inProcess := false;
    }

    /** attach_runtime_callback: refuses an empty name or a missing function, otherwise appends. */
    method AttachRuntimeCallback(name: string, func: Option<Config -> int>) returns (ret: int)
      modifies this
      ensures ret == 0 || ret == -1
      ensures ret == -1 <==> name == [] || func.None?
      ensures ret == -1 ==> calls == old(calls)
      ensures ret == 0 ==> calls == old(calls) + [(name, func.value)]
      ensures cfgFile == old(cfgFile) && settingPtr == old(settingPtr)
      ensures lastUpdateTime == old(lastUpdateTime) && inProcess == old(inProcess)
    {
      if name == [] || func.None? {
        return -1;
      }
      calls := calls + [(name, func.value)];
      ret := 0;
    }

    /** module_status: names the module and lists the registered callbacks, numbered from 1. */
    method ModuleStatus() returns (moduleName: string, name: string, val: string, ret: int)
      ensures moduleName == "roo" && name == "Setting" && ret == 0
      ensures val == StatusHeader + StatusLines(calls)
    {
      moduleName := "roo";
      name := "Setting";
      val := StatusHeader;
      var i := 1;
      while i <= |calls|
        invariant 1 <= i <= |calls| + 1
        invariant val == StatusHeader + StatusLines(calls[..i - 1])
      {
        assert calls[..i][..i - 1] == calls[..i - 1];
        val := val + StatusLine(i, calls[i - 1].0);
        i := i + 1;
      }
      assert calls[..i - 1] == calls;
      ret := 0;
    }
  }

  /** Attaching a callback makes the next successful update return that callback's result on top of the others'. */
  lemma {:induction false} AttachThenUpdate<Config>(calls: seq<(string, Config -> int)>, name: string, f: Config -> int, cfg: Config)
    ensures SumCallbacks(calls + [(name, f)], cfg) == SumCallbacks(calls, cfg) + f(cfg)
  {
    SumCallbacksAppend(calls, [(name, f)], cfg);
    assert [(name, f)][..0] == [];
  }
}
