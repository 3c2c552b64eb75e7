TestResult.DisplayName,TestResult.Outcome,TestResult.Duration,TestResult.ResourceCount,RandomSeed
ExportMenu.RemoveNameAppend (correctness),Passed,00:00:00.2897476,156032,0
