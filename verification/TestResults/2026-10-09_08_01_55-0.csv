TestResult.DisplayName,TestResult.Outcome,TestResult.Duration,TestResult.ResourceCount,RandomSeed
ExportMenu.RemoveNameAppend (correctness),Failed,00:00:01.4374658,2020846,5
