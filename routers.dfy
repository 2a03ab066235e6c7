/**
 * The decision rules of `Router` around device access: the pre-flight checks of
 * `is_usable_for_task`, the early guards of `set_napalm_configuration`, and how
 * `get_napalm_device` assembles the driver's parameters from the router, its platform and
 * the global settings.
 */
module Routers {
  import opened Wrappers
  import opened Net
  import opened Records

  // ---- is_usable_for_task ----------------------------------------------------------------

  const NOT_ENABLED: string := "Router is not enabled."
  const NO_PLATFORM: string := "Router has no assigned platform."
  const NO_DRIVER: string := "Router's platform has no NAPALM driver."

  /** The part of a job result the checks write: whether it errored, and its messages. */
  datatype JobResult = JobResult(errored: bool, messages: seq<string>)

  /** `job_result.mark_errored(message)` followed by `save()`. */
  function MarkErrored(job: JobResult, message: string): JobResult {
    JobResult(true, job.messages + [message])
  }

  /** The router has a platform with a (non-empty) NAPALM driver name. */
  predicate HasDriver(router: Router) {
    router.platform.Some? && router.platform.value.napalmDriver != ""
  }

  /** The message of the first check that fails, in the order the checks run. */
  function PreflightFailure(router: Router): (r: Option<string>)
    ensures r.None? <==> router.deviceState != Disabled && HasDriver(router)
    ensures router.deviceState == Disabled ==> r == Some(NOT_ENABLED)
    ensures router.deviceState != Disabled && router.platform.None? ==> r == Some(NO_PLATFORM)
    ensures router.deviceState != Disabled && router.platform.Some? && router.platform.value.napalmDriver == "" ==>
      r == Some(NO_DRIVER)
  {
    if router.deviceState == Disabled then Some(NOT_ENABLED)
    else if router.platform.None? then Some(NO_PLATFORM)
    else if router.platform.value.napalmDriver == "" then Some(NO_DRIVER)
    else None
  }

  /**
   * `is_usable_for_task`: whether the router can run a background task, and the job result
   * after the checks (marked errored with the failing check's message when one was given).
   */
  function IsUsableForTask(router: Router, job: Option<JobResult>): (r: (bool, Option<JobResult>))
    ensures r.0 <==> router.deviceState != Disabled && HasDriver(router)
    ensures r.0 || job.None? ==> r.1 == job
    ensures !r.0 && job.Some? ==>
      && r.1.Some? && r.1.value.errored
      && |r.1.value.messages| == |job.value.messages| + 1
      && r.1.value.messages[..|job.value.messages|] == job.value.messages
    ensures !r.0 && job.Some? ==> r.1 == Some(MarkErrored(job.value, PreflightFailure(router).value))
  {
    match PreflightFailure(router)
    case None => (true, job)
    case Some(message) => (false, if job.Some? then Some(MarkErrored(job.value, message)) else None)
  }

  /**
   * The checks run in order: a disabled router is reported as such whatever its platform,
   * then a missing platform, then a platform without a driver; a router in maintenance is
   * usable as soon as its platform has a driver.
   */
  lemma PreflightOrder(router: Router, job: JobResult)
    ensures router.deviceState == Disabled ==>
      IsUsableForTask(router, Some(job)).1 == Some(JobResult(true, job.messages + [NOT_ENABLED]))
    ensures router.deviceState != Disabled && router.platform.None? ==>
      IsUsableForTask(router, Some(job)).1 == Some(JobResult(true, job.messages + [NO_PLATFORM]))
    ensures router.deviceState != Disabled && router.platform.Some? && router.platform.value.napalmDriver == "" ==>
      IsUsableForTask(router, Some(job)) == (false, Some(JobResult(true, job.messages + [NO_DRIVER])))
    ensures router.deviceState == Maintenance ==> (IsUsableForTask(router, None).0 <==> HasDriver(router))
  {
  }

  // ---- set_napalm_configuration, early guards --------------------------------------------

  const DEVICE_DISABLED: string := "device is disabled, cannot deploy config"
  const NO_CONFIG: string := "no configuration found to be merged"

  /** The `config` argument: `None`, a value that is not a string, or a string. */
  datatype ConfigArg = NoConfig | NonString | Text(text: string)

  /**
   * The guards before the device is opened: the error returned (with no changes), or `None`
   * when the push goes on. A router in maintenance may still receive a configuration.
   */
  function ConfigGuard(router: Router, config: ConfigArg): (r: Option<string>)
    ensures r.None? <==> router.deviceState != Disabled && config.Text? && !IsBlank(config.text)
    ensures router.deviceState == Disabled ==> r == Some(DEVICE_DISABLED)
    ensures router.deviceState != Disabled && r.Some? ==> r == Some(NO_CONFIG)
  {
    if router.deviceState == Disabled then Some(DEVICE_DISABLED)
    else if config.NoConfig? || config.NonString? || IsBlank(config.text) then Some(NO_CONFIG)
    else None
  }

  /**
   * Any configuration that `strip()` empties is refused like a missing one, the file and
   * group separators included; one printable character is enough to go on.
   */
  lemma BlankConfigRefused(router: Router, text: string)
    requires router.deviceState != Disabled
    ensures IsBlank(text) ==> ConfigGuard(router, Text(text)) == ConfigGuard(router, NoConfig) == Some(NO_CONFIG)
    ensures ConfigGuard(router, Text("\U{1C}\U{1F} \n")) == Some(NO_CONFIG)
    ensures ConfigGuard(router, Text(" router bgp\n")).None?
  {
    assert !IsSpace(" router bgp\n"[1]);
  }

  // ---- get_napalm_device -----------------------------------------------------------------

  /** What `get_napalm_device` hands to the driver. */
  datatype DriverParams = DriverParams(
    driver: string, hostname: string, username: string, password: string,
    timeout: nat, optionalArgs: map<string, string>)

  /** Python's `a or b` on an optional string: `b` when `a` is `None` or empty. */
  function OrElse(a: Option<string>, b: string): (r: string)
    ensures a.Some? && a.value != "" ==> r == a.value
    ensures a.None? || a.value == "" ==> r == b
  {
    if a.Some? && a.value != "" then a.value else b
  }

  /** `timeout or NAPALM_TIMEOUT`: a zero timeout falls back to the setting. */
  function TimeoutOr(t: nat, fallback: nat): (r: nat)
    ensures t != 0 ==> r == t
    ensures t == 0 ==> r == fallback
  {
    if t != 0 then t else fallback
  }

  /** The router's own optional arguments, empty when it has none. */
  function RouterArgs(router: Router): map<string, string> {
    if router.napalmArgs.Some? then router.napalmArgs.value else map[]
  }

  /** The arguments merged first from the global ones, then the platform's, then the router's. */
  function MergeArgs(global: map<string, string>, router: Router): map<string, string>
    requires router.platform.Some?
  {
    global + router.platform.value.napalmArgs + RouterArgs(router)
  }

  /**
   * A key the router sets takes the router's value; otherwise a key the platform sets takes
   * the platform's; otherwise the global value stays; and no other key appears.
   */
  lemma ArgsPrecedence(global: map<string, string>, router: Router, key: string)
    requires router.platform.Some?
    ensures key in MergeArgs(global, router) <==>
      key in RouterArgs(router) || key in router.platform.value.napalmArgs || key in global
    ensures key in RouterArgs(router) ==> MergeArgs(global, router)[key] == RouterArgs(router)[key]
    ensures key !in RouterArgs(router) && key in router.platform.value.napalmArgs ==>
      MergeArgs(global, router)[key] == router.platform.value.napalmArgs[key]
    ensures key !in RouterArgs(router) && key !in router.platform.value.napalmArgs && key in global ==>
      MergeArgs(global, router)[key] == global[key]
  {
  }

  /** The parameters for a router once its driver is found, given the settings' values. */
  function Params(router: Router, username: string, password: string, timeout: nat, global: map<string, string>): (r: DriverParams)
    requires HasDriver(router)
    ensures r.driver == router.platform.value.napalmDriver && r.hostname == router.hostname
    ensures r.username == OrElse(router.napalmUsername, username)
    ensures r.password == OrElse(router.napalmPassword, password)
    ensures r.timeout == TimeoutOr(router.napalmTimeout, timeout)
    ensures r.optionalArgs == MergeArgs(global, router)
  {
    DriverParams(router.platform.value.napalmDriver, router.hostname,
      OrElse(router.napalmUsername, username), OrElse(router.napalmPassword, password),
      TimeoutOr(router.napalmTimeout, timeout), MergeArgs(global, router))
  }

  /** The NAPALM settings of the process. */
  class Settings {
    var napalmUsername: string
    var napalmPassword: string
    var napalmTimeout: nat
    var napalmArgs: map<string, string>

    constructor (username: string, password: string, timeout: nat, args: map<string, string>)
      ensures napalmUsername == username && napalmPassword == password
      ensures napalmTimeout == timeout && napalmArgs == args
    {
      napalmUsername, napalmPassword, napalmTimeout, napalmArgs := username, password, timeout, args;
    }

    /**
     * `get_napalm_device` as written: `None` when the router has no driver or the driver is
     * not installed; otherwise the parameters, where `args` is the global dictionary itself,
     * so the platform's and the router's arguments are merged into the setting.
     */
    method NapalmDeviceAsWritten(router: Router, installed: set<string>) returns (r: Option<DriverParams>)
      modifies this
      ensures !HasDriver(router) || router.platform.value.napalmDriver !in installed ==>
        r.None? && napalmArgs == old(napalmArgs)
      ensures HasDriver(router) && router.platform.value.napalmDriver in installed ==>
        && napalmArgs == MergeArgs(old(napalmArgs), router)
        && r == Some(Params(router, napalmUsername, napalmPassword, napalmTimeout, old(napalmArgs)))
      ensures napalmUsername == old(napalmUsername) && napalmPassword == old(napalmPassword)
      ensures napalmTimeout == old(napalmTimeout)
    {
      if router.platform.None? || router.platform.value.napalmDriver == "" {
        return None;
      }
      if router.platform.value.napalmDriver !in installed {
        return None;
      }
      if router.platform.value.napalmArgs != map[] {
        napalmArgs := napalmArgs + router.platform.value.napalmArgs;
      }
      if router.napalmArgs.Some? && router.napalmArgs.value != map[] {
        napalmArgs := napalmArgs + router.napalmArgs.value;
      }
      r := Some(DriverParams(router.platform.value.napalmDriver, router.hostname,
        OrElse(router.napalmUsername, napalmUsername), OrElse(router.napalmPassword, napalmPassword),
        TimeoutOr(router.napalmTimeout, napalmTimeout), napalmArgs));
    }

    /**
     * `get_napalm_device` with the global arguments copied before the merge: the same
     * parameters, and the settings are left alone.
     */
    method NapalmDevice(router: Router, installed: set<string>) returns (r: Option<DriverParams>)
      ensures r.None? <==> !HasDriver(router) || router.platform.value.napalmDriver !in installed
      ensures r.Some? ==> r == Some(Params(router, napalmUsername, napalmPassword, napalmTimeout, napalmArgs))
    {
      if router.platform.None? || router.platform.value.napalmDriver == "" {
        return None;
      }
      if router.platform.value.napalmDriver !in installed {
        return None;
      }
      var args := napalmArgs;
      if router.platform.value.napalmArgs != map[] {
        args := args + router.platform.value.napalmArgs;
      }
      assert args == napalmArgs + router.platform.value.napalmArgs;
      if router.napalmArgs.Some? && router.napalmArgs.value != map[] {
        args := args + router.napalmArgs.value;
      }
      assert args == MergeArgs(napalmArgs, router);
      r := Some(DriverParams(router.platform.value.napalmDriver, router.hostname,
        OrElse(router.napalmUsername, napalmUsername), OrElse(router.napalmPassword, napalmPassword),
        TimeoutOr(router.napalmTimeout, napalmTimeout), args));
    }
  }

  /** Two routers on one platform without arguments of their own, the first setting a port. */
  function PortRouter(): Router {
    Router(1, "r1", "r1.example", Some(Platform("junos", map[])), Enabled, None, None, 0, Some(map["port" := "2222"]))
  }

  function PlainRouter(): Router {
    Router(2, "r2", "r2.example", Some(Platform("junos", map[])), Enabled, None, None, 0, None)
  }

  /**
   * As written, the second router's device inherits the first router's `port`: the global
   * arguments after the first call are those of the first router.
   */
  lemma SecondRouterInheritsPort()
    ensures var afterFirst := MergeArgs(map[], PortRouter());
      && "port" in MergeArgs(afterFirst, PlainRouter())
      && "port" !in MergeArgs(map[], PlainRouter())
  {
    var afterFirst := MergeArgs(map[], PortRouter());
    assert afterFirst == map["port" := "2222"];
    assert "port" in MergeArgs(afterFirst, PlainRouter());
  }
}
