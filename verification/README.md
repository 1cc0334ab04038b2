# Hospital material consumption: financial impact and data-quality checks

This project models the core of a small analysis pipeline. The pipeline studies movements of
hospital material (syringes, medicines, tubes, tape, gauze) between hospital units. The model
covers two parts of it.

- **Data-quality checks** of the exploratory analysis. A movement is a row with a unit, a
  material, an operation type (`entrada`/`saida`), a quantity that may be missing, and a
  responsible person who may be missing. The checks count rows whose quantity is null. They
  list rows whose operation type contradicts the sign of the quantity. They list and count
  rows that have no responsible person.
- **The financial simulation.** Scored movements carry the Z-score and the severity label
  ("Normal", "Atenção", "Alerta", "Crítico") of an earlier stage. Each row is priced from a
  fixed table. The rows labelled "Alerta" or "Crítico" are the anomalies. Three impact
  estimates are derived from them:
  - incorrect records: `value × (z − 1) / z` per flagged row;
  - missing records: for each (material, unit) group that occurs, 10% of its flagged rows
    times the mean value of the whole group;
  - duplicates: 5% of each flagged row's value.

  These are then combined:
  - the total is the sum of the three estimates;
  - the incorrect-record impact is broken down by material and by unit;
  - the total is expressed as a share of the value moved by all rows;
  - a total including R$ 22,000 of fixed indirect costs is computed, with its own share.

Modules follow the program's structure:

- `Optional` and `Seqs` are generic helpers: `Option`, filtering, subsequences, distinct
  values.
- `Sums` holds the three ways the scripts add columns up:
  - pandas `.sum()`, which skips missing cells;
  - `.mean()`, which is missing when no cell is present;
  - Python's builtin `sum`, where one missing cell (a NaN) poisons the result.
- `Movements` defines the row types and the severity labels.
- `Validation` holds the data-quality checks.
- `Valuation` covers prices, row values, the anomaly mask and per-row impacts.
- `Breakdown` holds the group-by breakdowns.
- `MissingRecords` holds the per-group missing-record dictionary.
- `Simulation` holds the report and the laws that relate its figures.

Pandas' missing value (NaN) is `None` in the model. Money and quantities are `real`, so
there is no rounding.

Three consequences of the code as written are worth stating, since the model keeps each:

- A flagged row with Z-score 0 makes the script divide by zero. Nothing in the code makes
  such a row contribute zero. The model therefore requires a non-zero Z-score on flagged
  rows (`Simulation.ScoresUsable`) and claims nothing about zero scores.
- The mean used for missing records is taken over all rows of the (material, unit) group,
  flagged or not, because the group is cut from the full table.
- The percentage of impact is not bounded by 100. The worked single-row report is already
  90%, or 8,890% with the indirect costs. A negative Z-score makes the incorrect-record
  impact exceed the row's own value (`Valuation.NegativeScoreExceedsValue`). The model
  states the exact relation `percentage × moved = total × 100` and no bound.

## Model

| member | source | states |
|---|---|---|
| Valuation.Value | simulacao_impacto_financeiro.py:26-27 | A row's value is present exactly when its quantity is present and its material is in the price table; with a non-negative price it is non-negative (magnitude of the quantity times the price) |
| Valuation.IsAnomaly | simulacao_impacto_financeiro.py:36 | Rows labelled Normal, Atenção or not labelled are never anomalies |
| Simulation.Anomalies | simulacao_impacto_financeiro.py:36 | The flagged rows are a subsequence of the input (order kept) and contain exactly the input rows labelled Alerta or Crítico; each flagged row keeps every copy it has in the input, and when every flagged input row has a non-zero Z-score, so does every row of the result |
| Valuation.IncorrectImpact | simulacao_impacto_financeiro.py:40 | A flagged row's incorrect-record impact is present exactly when its value is |
| Valuation.IncorrectImpactBounds | simulacao_impacto_financeiro.py:40 | The impact is the value minus the value the Z-score suggests was expected (v − v/z); for a non-negative value it is non-negative when z ≥ 1 or z < 0, and at most the value when z ≥ 1 |
| Valuation.IncorrectColumnNonNegative | simulacao_impacto_financeiro.py:40 | With non-negative prices and no flagged score in (0, 1), no cell of the incorrect-record column is negative |
| Valuation.SyringeExample | simulacao_impacto_financeiro.py:40 | 100 syringes at R$ 2.50 with Z-score 4 give R$ 187.50 of incorrect-record impact |
| Valuation.NegativeScoreExceedsValue | simulacao_impacto_financeiro.py:40 | With Z-score −1 the impact of a R$ 250.00 row is R$ 500.00, twice its value |
| Valuation.Values | simulacao_impacto_financeiro.py:27 | The value column has one cell per row, cell i being row i's value, and with non-negative prices no cell is negative |
| Valuation.IncorrectColumn | simulacao_impacto_financeiro.py:40 | The incorrect-record column has one cell per flagged row, cell i being row i's impact |
| Valuation.DuplicateColumn | simulacao_impacto_financeiro.py:56 | The duplicate column has one cell per flagged row, cell i being row i's duplicate impact |
| Valuation.DuplicateImpact | simulacao_impacto_financeiro.py:56 | A row's duplicate impact is present exactly when its value is, and lies between 0 and the row's non-negative value |
| Valuation.DuplicateSumIsRateOfValue | simulacao_impacto_financeiro.py:56-61 | The duplicate total is 5% of the summed value of the flagged rows |
| MissingRecords.FlaggedCount | simulacao_impacto_financeiro.py:50 | The number of flagged rows of a group is at most the group's size |
| MissingRecords.FlaggedCountIsMaskSize | simulacao_impacto_financeiro.py:50 | The flagged count is the length of the group filtered by the Alerta/Crítico mask |
| MissingRecords.NoFlaggedRows | simulacao_impacto_financeiro.py:50 | A group has zero flagged rows exactly when none of its rows is Alerta or Crítico |
| MissingRecords.FlaggedShareLaw | simulacao_impacto_financeiro.py:50-52 | Adding a tenth of the mean once per flagged row gives flagged count × 0.1 × mean |
| MissingRecords.GroupMissingImpactPresence | simulacao_impacto_financeiro.py:51-52 | A group's estimate is present exactly when some row of the group has a value (the group mean is not NaN) |
| MissingRecords.GroupMissingImpactLaw | simulacao_impacto_financeiro.py:50-52 | Given the group mean, the estimate is flagged count × 0.1 × mean, and 0 when nothing in the group is flagged |
| MissingRecords.GroupMissingImpactNonNegative | simulacao_impacto_financeiro.py:50-52 | With non-negative prices, a present group estimate is non-negative |
| MissingRecords.GroupNonEmptyIff | simulacao_impacto_financeiro.py:46-47 | The (material, unit) subset is non-empty exactly when some row has that material and unit |
| MissingRecords.RowKeys | simulacao_impacto_financeiro.py:45-47 | For one material, the keys pair it with exactly those listed units whose group is non-empty |
| MissingRecords.MissingKeys | simulacao_impacto_financeiro.py:43-48 | The dictionary's keys are distinct and are exactly the (material, unit) pairs that occur in some row; empty combinations get no entry |
| MissingRecords.EstimatesPresent | simulacao_impacto_financeiro.py:60 | Summing the dictionary's values with the builtin sum gives a number exactly when every key's estimate is present |
| MissingRecords.MissingTotalPresence | simulacao_impacto_financeiro.py:43-60 | The missing-record total is present exactly when every row's (material, unit) group has a valued row |
| MissingRecords.UnpricedGroupPoisonsTotal | simulacao_impacto_financeiro.py:51-60 | One group without any valued row (NaN mean) makes the missing-record total NaN |
| MissingRecords.MissingTotalNonNegative | simulacao_impacto_financeiro.py:60 | With non-negative prices a present missing-record total is non-negative |
| Sums.SumPresent | simulacao_impacto_financeiro.py:59 | A pandas sum of a column is non-negative when its present cells are |
| Sums.SumPresentOfZeros | simulacao_impacto_financeiro.py:59 | A column whose present cells are all zero sums to zero |
| Sums.CountPresent | simulacao_impacto_financeiro.py:51 | The number of present cells is at most the column's length and is zero exactly when every cell is missing |
| Sums.CountPresentIsPresentCells | simulacao_impacto_financeiro.py:51 | The count is the length of the column with its missing cells dropped |
| Sums.MeanPresent | simulacao_impacto_financeiro.py:51 | The mean is present exactly when some cell is present |
| Sums.MeanTimesCount | simulacao_impacto_financeiro.py:51 | A present mean times the number of present cells is their sum |
| Sums.MeanNonNegative | simulacao_impacto_financeiro.py:51 | The mean of non-negative cells is non-negative |
| Sums.SumStrict | simulacao_impacto_financeiro.py:60 | The builtin sum is present exactly when every value is, and then equals the pandas sum |
| Sums.SumPresentAppend | simulacao_impacto_financeiro.py:59 | The pandas sum of a concatenation is the sum of the two sums |
| Breakdown.IncorrectBreakdown | simulacao_impacto_financeiro.py:76-80 | Each breakdown has one bucket per distinct material (or unit) of the flagged rows. Every flagged row's key has a bucket, each bucket holds the impact of exactly its rows, and the buckets add up to the incorrect-record total |
| Breakdown.BucketsPartition | simulacao_impacto_financeiro.py:76-80 | Buckets over distinct keys that cover every row's key sum to the whole column |
| Simulation.Percentage | simulacao_impacto_financeiro.py:83-84 | The share is defined exactly when the impact is and the moved value is non-zero, and then share × moved = impact × 100 |
| Simulation.WithIndirect | simulacao_impacto_financeiro.py:120 | The total with indirect costs exceeds the direct total by exactly R$ 22,000 and is present exactly when it is |
| Simulation.Simulate | simulacao_impacto_financeiro.py:59-122 | Each figure of the report: duplicate = 5% of the flagged value, and total = incorrect + missing + duplicate (present exactly when the missing total is). The breakdowns are the per-material and per-unit groupings of the flagged rows, and each adds up to the incorrect total. Moved value is over all rows, and both shares relate to the moved value as above |
| Simulation.UnflaggedRowAddsNothing | simulacao_impacto_financeiro.py:36-61 | Inserting a Normal, Atenção or unlabelled row anywhere changes neither the flagged rows nor the incorrect and duplicate totals |
| Simulation.ImpactNonNegative | simulacao_impacto_financeiro.py:40-62 | With non-negative prices and no flagged score in (0, 1), the incorrect, missing, duplicate and overall totals are non-negative |
| Simulation.NoAnomalyNoImpact | simulacao_impacto_financeiro.py:36-61 | Without flagged rows, the incorrect and duplicate totals are zero and a present missing total is zero |
| Simulation.SingleSyringeReport | simulacao_impacto_financeiro.py:17-122 | One Alerta row of 100 syringes with Z-score 4 gives 187.50 incorrect, 25.00 missing, 12.50 duplicate and 225.00 total. Both breakdowns hold a single 187.50 bucket, the moved value is 250.00 and the share is 90%; with indirect costs, 22,225.00 and 8,890% |
| Validation.IsTypeSignInconsistent | analise_exploratoria.py:34-37 | A row is inconsistent exactly when its quantity is present and breaks the sign convention (inflow negative, outflow positive). A missing quantity, a zero quantity or any other operation type is never inconsistent |
| Validation.SignScenarios | analise_exploratoria.py:34-37 | An inflow of −50 and an outflow of +50 are inconsistent; an outflow of −50 is not |
| Validation.NullQuantityCount | analise_exploratoria.py:31 | The null count is at most the number of rows and is zero exactly when every quantity is present |
| Validation.NullQuantityCountAdds | analise_exploratoria.py:31 | The null count adds over concatenation and counts one row once exactly when its quantity is missing |
| Validation.TypeSignInconsistencies | analise_exploratoria.py:34-37 | The inconsistent rows keep their input order and carry every inconsistent row with its multiplicity, and no other row |
| Validation.MissingOwner | analise_exploratoria.py:42 | The ownerless rows keep their input order and carry every row without a responsible person with its multiplicity, and no other row |
| Validation.Validate | analise_exploratoria.py:69-72 | The report's null count is the number of rows with a null quantity. Each other count is the length of its list. The lists are the order-keeping filters of the ownerless and the inconsistent rows, with every copy of such a row kept |

## Left out

- Loading the CSV files, parsing dates, and writing the report text files. The model returns
  the figures the scripts write.
- Plots, the printed overviews of the exploratory analysis (`describe`, `value_counts`,
  per-column null counts) and the PDF presentation.
- Computing Z-scores, IQR bounds and severity labels. They are inputs of the simulation: each
  scored row carries its Z-score and label.
- Generating the synthetic data set and the orchestration script. criar_dados.py,
  criar_apresentacao.py and main.py are not part of this model.
- Floating point. Money is modelled with exact reals, so rounding and the two-decimal
  formatting are not modelled.
- A non-finite percentage (moved value 0) is modelled as a missing share.
- Flagged rows with Z-score 0 are excluded by precondition. The script divides by zero there.
- Pandas `groupby` sorts its keys, while the breakdowns keep first-appearance order. The keys,
  the amounts and their total are the same.
- Missing material or unit names are not modelled; pandas would drop them from a `groupby`.
  Materials and units are always present strings.
- Valuation.IsAnomaly: its contract states only that Normal, Atenção and unlabelled rows are
  not anomalies. The converse, that Alerta and Crítico rows are, holds by the definition
  itself, and `Simulation.Anomalies` states the full membership condition.
- Simulation.Simulate: it states the share as `Percentage(total, moved)`. The relation
  `share × moved = total × 100` is proved once, on `Simulation.Percentage`.
