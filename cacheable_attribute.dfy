/** `CacheableAttribute`: marks an operation as cacheable and names its
    policy key. The key is fixed at construction; the duration and the
    deep-copy flag have setters and are overwritten from the configuration
    each time the interceptor resolves the policy. */
module Attributes {

  class CacheableAttribute {
    /** `CacheKey`: the policy key; get-only. */
    const cacheKey: string
    /** `Duration`, as an opaque tick count; zero by default. */
    var duration: int
    /** `ReturnDeepCopy`; false by default and never acted on. */
    var returnDeepCopy: bool

    constructor (cacheKey: string)
      ensures this.cacheKey == cacheKey
      ensures duration == 0 && !returnDeepCopy
    {
      this.cacheKey := cacheKey;
      duration := 0;
      returnDeepCopy := false;
    }

    /** The `Duration` setter. */
    method SetDuration(value: int)
      modifies this`duration
      ensures duration == value
      ensures returnDeepCopy == old(returnDeepCopy)
    {
      duration := value;
    }

    /** The `ReturnDeepCopy` setter. */
    method SetReturnDeepCopy(value: bool)
      modifies this`returnDeepCopy
      ensures returnDeepCopy == value
      ensures duration == old(duration)
    {
      returnDeepCopy := value;
    }
  }
}
