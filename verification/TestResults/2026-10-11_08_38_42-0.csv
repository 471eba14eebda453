TestResult.DisplayName,TestResult.Outcome,TestResult.Duration,TestResult.ResourceCount,RandomSeed
AnchorLedger.Ledger.ProcessAll (correctness),Passed,00:00:00.3588757,513108,0
AnchorLedger.Ledger.ProcessAll (well-formedness),Passed,00:00:00.2761838,249029,0
