/** `test_env_number`: the value of `TEST_ENV_NUMBER` that `run_tests`
    exports for a worker, as it lands in the shell command. Each worker uses
    it to pick its own isolated resources, such as a database. */
module TestEnv {
  import opened RubyText

  /** `process_number == 0 ? '' : process_number + 1`, interpolated into the
      command: empty for the first worker, the decimal digits of
      `process_number + 1` for every other one. */
  function TestEnvNumber(processNumber: nat): (r: string)
    ensures r == "" <==> processNumber == 0
    ensures forall i :: 0 <= i < |r| ==> IsDigit(r[i])
    ensures processNumber > 0 ==> ParseDecimal(r) == processNumber + 1 && r[0] != '0'
  {
    if processNumber == 0 then ""
    else
      ParseDecimalString(processNumber + 1);
      DecimalString(processNumber + 1)
  }

  /** No worker gets "1": the second worker already gets "2". */
  lemma TestEnvNumberNeverOne(processNumber: nat)
    ensures TestEnvNumber(processNumber) != "1"
  {
    if processNumber > 0 {
      assert ParseDecimal("1") == 1 by {
        assert "1"[..0] == "";
      }
    }
  }

  /** Different workers get different values, so no two share the
      resources the value selects. */
  lemma TestEnvNumberInjective(a: nat, b: nat)
    requires TestEnvNumber(a) == TestEnvNumber(b)
    ensures a == b
  {
  }
}
