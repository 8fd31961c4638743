/** The PID file of puppeteer-process-manager.service.ts: what storePidAsync writes, loadPid reads back. */
module PidFile {
  import opened Wrappers
  import opened Strings

  const MAX_PID: nat := 2147483647

  /** Number.prototype.toString on a non-negative integer. */
  function Decimal(n: nat): string {
    if n < 10 then [('0' as int + n) as char] else Decimal(n / 10) + [('0' as int + n % 10) as char]
  }

  /** parseInt(s, 10) on a string of digits. */
  function ParseDigits(s: string): nat
    requires AllDigits(s)
  {
    if s == "" then 0 else 10 * ParseDigits(s[..|s| - 1]) + (s[|s| - 1] as int - '0' as int)
  }

  /** loadPid on the file's contents: None also stands for deleting a corrupted file. */
  function LoadPid(contents: string): Option<nat> {
    var pidStr := Trim(contents);
    if pidStr == "" || !AllDigits(pidStr) then None
    else
      var pid := ParseDigits(pidStr);
      if pid <= 0 || pid > MAX_PID then None else Some(pid)
  }

  lemma {:induction false} DecimalDigits(n: nat)
    ensures Decimal(n) != "" && AllDigits(Decimal(n)) && ParseDigits(Decimal(n)) == n
  {
    if n < 10 {
      assert Decimal(n)[..0] == "";
    } else {
      DecimalDigits(n / 10);
      var d := [('0' as int + n % 10) as char];
      assert Decimal(n)[..|Decimal(n)| - 1] == Decimal(n / 10);
    }
  }

  /** A stored PID is read back, whatever space surrounds it, exactly when it is a positive 32-bit process
      id, and no other PID is read from it. */
  lemma StoredPidReadBackExactlyWhen(pid: nat, before: string, after: string)
    requires AllSpace(before) && AllSpace(after)
    ensures LoadPid(before + Decimal(pid) + after) == if 0 < pid <= 2147483647 then Some(pid) else None
  {
    DecimalDigits(pid);
    var s := Decimal(pid);
    assert IsDigit(s[0]) && IsDigit(s[|s| - 1]);
    TrimmedText(before, s, after);
  }
}
