/** Shared value types: optional values, parsed subscription entries and speed-test results. */
module Base {
  datatype Option<+T> = None | Some(value: T)

  /** A process handle (`*exec.Cmd`): the n-th process ever started. */
  type Handle = nat

  datatype ProxyConfig = ProxyConfig(protocol: string, server: string, port: int, name: string, raw: string)

  /** `failed` stands for a non-nil Error. */
  datatype TestResult = TestResult(config: ProxyConfig, speed: real, stability: int, failed: bool)

  lemma SubsetSize<T>(a: set<T>, b: set<T>)
    requires a <= b
    ensures |a| <= |b|
  {
    assert b == a + (b - a);
  }
}
