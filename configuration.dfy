/** The configuration the interceptor is built with: plain data bound once
    from the application's settings and only read afterwards. */
module Configuration {

  /** `CacheSettings`: the policy of one policy key. The duration is kept as
      an opaque tick count; the deep-copy flag is carried and never acted on. */
  datatype CacheSettings = CacheSettings(duration: int, returnDeepCopy: bool)

  /** `CachingConfigurationBlock`: the semaphore wait bound, in milliseconds,
      and the policy of each policy key. */
  datatype CachingConfigurationBlock = CachingConfigurationBlock(
    deadLockTimeOut: int,
    itemsConfiguration: map<string, CacheSettings>)

  /** The wait bound when the settings give none: zero, so the semaphore
      wait never blocks. */
  const DefaultDeadLockTimeOut: int := 0
}
