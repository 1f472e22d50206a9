/**
 The library's one piece of mutable configuration: the default timeout, in
 milliseconds, that every matcher may wait for its expectation to hold
 (src/config.ts). The module-level variable becomes the one field of a
 class, and `setDefaultTimeout` its setter.
 */
module Config {

  /** The value the setting starts with when the module is loaded. */
  const InitialTimeout: int := 5000

  class TimeoutSetting {
    /** Milliseconds; any number is accepted, zero and negatives included. */
    var defaultTimeout: int

    /** Loading the module (src/config.ts:1). */
    constructor ()
      ensures defaultTimeout == InitialTimeout
    {
      defaultTimeout := InitialTimeout;
    }

    /** `setDefaultTimeout` (src/config.ts:8-10): overwrites the setting, without validation. */
    method SetDefaultTimeout(newTimeout: int)
      modifies this
      ensures defaultTimeout == newTimeout
    {
      defaultTimeout := newTimeout;
    }
  }

  /** Two writes in a row: the second one is what stays. */
  method SetTwice(setting: TimeoutSetting, first: int, second: int)
    modifies setting
    ensures setting.defaultTimeout == second
  {
    setting.SetDefaultTimeout(first);
    setting.SetDefaultTimeout(second);
  }

  /**
   The save, set, restore pattern of the library's tests: read the setting,
   set another value for a while, then write the saved value back. The
   setting reads `temporary` in between and its original value afterwards.
   */
  method WithTemporaryTimeout(setting: TimeoutSetting, temporary: int) returns (during: int)
    modifies setting
    ensures during == temporary
    ensures setting.defaultTimeout == old(setting.defaultTimeout)
  {
    var saved := setting.defaultTimeout;
    setting.SetDefaultTimeout(temporary);
    during := setting.defaultTimeout;
    setting.SetDefaultTimeout(saved);
  }
}
