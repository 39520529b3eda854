# Service-queue dashboard metrics

A model of the metric-derivation layer of a call-centre reporting dashboard.
The dashboard reads a ticket table and draws one tab per view. Each ticket records:

- `retirada`: when the ticket was withdrawn;
- `inicio`: when service started;
- the service, wait and stay durations;
- the collaborator (`usuário`), the client and the operation.

Every tab repeats the same shape:

1. keep the tickets withdrawn within a sidebar date range, both ends inclusive;
2. optionally narrow them by shift (`turno`) or by client;
3. group them and aggregate counts, sums, minima, maxima and means;
4. derive variations against another period or against a target.

The model keeps that pipeline and leaves out the Streamlit widgets and the Plotly figures.

Tickets carry whole-second timestamps and durations. A timestamp's calendar date is its day number (floor division by 86400), and its hour is taken within that day. Means and percentages are exact `real`s. A division that can meet a zero denominator yields an extended value, `ExtReal.Ext`: finite, +∞, −∞ or NaN. This matches what the data-frame library produces. Comparisons with NaN are false, as they are there.

Modules, in dependency order:

| Module | What it covers |
|---|---|
| `Outcome` | `Option` and `Result`; the errors are a missing target row and a missing `turno` column. |
| `ExtReal` | Quotients, percentage changes and the NaN-last sort order. |
| `Orders`, `Seqs`, `Sorting` | Generic sequence machinery: filtering, sums and means, group-by in ascending key order, `unique()` in order of first appearance, and sorting / `nlargest` / `nsmallest`. The sort is a stable insertion sort, so rows with equal keys keep their input order, and `nlargest` / `nsmallest` keep the earlier of tied rows. |
| `Tickets` | The ticket record, the period mask and the target lookup. |
| `Shifts` | Hour-of-day shift buckets and the shift selector. |
| `SidebarFilters` | `criar_filtros`. |
| `Breakdown` | The client/operation selection shared by the service-time and stay-time tabs. |
| `CollaboratorPerformance` | `calcular_metricas_colaborador`, its top-10 lists, and `calcular_metricas_periodos`. |
| `IdleTime` | `calcular_tempo_ocioso`, the idle share and its warning. |
| `Occurrences` | `identificar_ocorrencias`: slow services and long intervals. |
| `ServiceTimes` | `calcular_tempos_por_periodo`, the inner-join comparison and its insights. |
| `StayTimes` | `calcular_permanencia` and its insights. |
| `CollaboratorTimes` | `analisar_tempos_colaborador`, its pickers, headline figures and target insights. |

`calcular_metricas_colaborador` appears identically in two files:

- src/visualizacao/dashboards/desenvolvimento_pessoas/performance.py:8-47
- backup/performance.py:8-47

It is modelled once.

A collaborator's idle time on a day is the span between the day's first and last service start, less a fixed lunch break chosen with a slider, less the day's total service time. Nothing is clamped, so it can be negative.

## Model

| member | source | states |
|---|---|---|
| Tickets.HourOf | src/visualizacao/dashboards/desenvolvimento_pessoas/performance.py:20 | The hour of a timestamp is always within 0..23, for timestamps before the epoch too. |
| Tickets.SelectPeriod | src/visualizacao/dashboards/desenvolvimento_pessoas/performance.py:12-17 | A ticket is kept iff its withdrawal date lies in the period, with both ends inclusive. Each kept ticket keeps its multiplicity, and every other ticket has multiplicity 0. |
| Tickets.TargetOf | src/visualizacao/dashboards/desenvolvimento_pessoas/ocorrencias.py:28 | The target lookup succeeds iff some target row names the operation. Otherwise it fails with the missing-target error for that operation. |
| Tickets.TargetOfFirstMatch | src/visualizacao/dashboards/desenvolvimento_pessoas/ocorrencias.py:28 | A found target is the minutes of the first row naming the operation; no earlier row names it. |
| Shifts.ShiftOfHour | src/visualizacao/dashboards/desenvolvimento_pessoas/performance.py:20-22 | Shift A is exactly hours 7..14, B is exactly 15..22, and C is exactly 0..6 and 23. |
| Shifts.ShiftsSplitTheDay | src/visualizacao/dashboards/desenvolvimento_pessoas/performance.py:20-22 | Each of the three shifts covers exactly eight of the day's 24 hours. |
| Shifts.SelectShift | src/visualizacao/dashboards/desenvolvimento_pessoas/performance.py:24-26 | No selection, "" and "Todos" leave the tickets unchanged. Any other selection keeps exactly the tickets whose start-hour shift has that label, with their multiplicities. |
| Shifts.UnknownShiftKeepsNothing | src/visualizacao/dashboards/desenvolvimento_pessoas/performance.py:25-26 | A selection that is neither a pass-through value nor a shift label keeps no ticket. |
| SidebarFilters.CreateFilters | src/visualizacao/filtros.py:48-111 | Filters are returned iff each period's end is not before its start and data is loaded. They carry exactly the entered periods, selections and target. |
| SidebarFilters.OverlapAccepted | src/visualizacao/filtros.py:49 | Overlapping periods are not refused; only each period's own order is checked. |
| SidebarFilters.DefaultPeriods | src/visualizacao/filtros.py:17-46 | The default comparison period (30 days) ends the day before the default base period (31 days) begins. The base period ends today, and the two share no day. |
| SidebarFilters.Options | src/visualizacao/filtros.py:61 | An option list is the "all" entry followed by the column's distinct values in strictly ascending order, and nothing else. |
| SidebarFilters.ClientOptions | src/visualizacao/filtros.py:61 | The client options are "Todos" followed by exactly the clients occurring in the table, ascending. |
| SidebarFilters.OperationOptions | src/visualizacao/filtros.py:70 | The operation options are "Todas" followed by exactly the operations occurring in the table, ascending. |
| Breakdown.Selection | src/visualizacao/dashboards/operacoes_clientes/tempo_atend.py:13-21 | A ticket is aggregated iff it was withdrawn in the chosen period and, when grouping by operation with a client selection other than exactly ["Todos"], its client is selected. |
| Breakdown.ByClientIgnoresClientSelection | src/visualizacao/dashboards/operacoes_clientes/tempo_atend.py:20 | When grouping by client, the selection does not depend on the client choice. |
| Breakdown.AllClientsOnlyAsSoleEntry | src/visualizacao/dashboards/operacoes_clientes/permanencia.py:18-19 | "Todos" listed next to other clients does not keep unlisted clients. |
| Breakdown.Keys | src/visualizacao/dashboards/operacoes_clientes/tempo_atend.py:24-27 | The group keys are strictly ascending, so they are distinct. They are exactly the keys of the selected tickets. |
| Breakdown.KeysPartition | src/visualizacao/dashboards/operacoes_clientes/tempo_atend.py:24-27 | The groups' sizes add up to the number of selected tickets. |
| CollaboratorPerformance.Users | src/visualizacao/dashboards/desenvolvimento_pessoas/performance.py:29 | Each collaborator with a selected ticket appears once, in ascending order, and no one else appears. |
| CollaboratorPerformance.Rows | src/visualizacao/dashboards/desenvolvimento_pessoas/performance.py:29-45 | Each row holds its collaborator's ticket count, mean service time and mean wait in minutes, and its variation against the given overall mean. |
| CollaboratorPerformance.MetricsOf | src/visualizacao/dashboards/desenvolvimento_pessoas/performance.py:28-45 | There is one row per collaborator with a selected ticket, in ascending order, and no other row. Each row's count is the size of that collaborator's group and at least 1, and the counts add up to the selected tickets. Each row's mean service and mean wait are that collaborator's means in minutes. Each variation is the percent change of the row's mean service from the unweighted mean of all rows' mean service times. |
| CollaboratorPerformance.CollaboratorMetrics | src/visualizacao/dashboards/desenvolvimento_pessoas/performance.py:8-47 | The rows are the per-collaborator metrics of exactly the tickets withdrawn in the base period whose start-hour shift matches the selection. A collaborator is listed iff they have such a ticket. The counts add up to the number of such tickets. |
| CollaboratorPerformance.MeanServiceBetweenExtremes | src/visualizacao/dashboards/desenvolvimento_pessoas/performance.py:29-39 | A row's mean service time, back in seconds, lies between the shortest and the longest service time among that collaborator's tickets. |
| CollaboratorPerformance.VariationsSumToZero | src/visualizacao/dashboards/desenvolvimento_pessoas/performance.py:43-45 | When that mean is not zero, the variations add up to zero. |
| CollaboratorPerformance.DeviationsSum | src/visualizacao/dashboards/desenvolvimento_pessoas/performance.py:45 | The summed variations, times the mean, equal 100 times the gap between the summed means and count × mean. |
| CollaboratorPerformance.Deviation | src/visualizacao/dashboards/desenvolvimento_pessoas/performance.py:45 | Against a non-zero mean, a variation is finite and equals 100·(t − m)/m. |
| CollaboratorPerformance.TopByServices | src/visualizacao/dashboards/desenvolvimento_pessoas/performance.py:125 | The list has min(10, n) rows drawn from the table and is non-increasing in count. No row left out has a higher count than a listed row. Of rows with equal counts, the listed ones are the earliest in the table, in table order. |
| CollaboratorPerformance.TiedEarlierListedByServices | src/visualizacao/dashboards/desenvolvimento_pessoas/performance.py:125 | If a row is listed by count, every earlier table row with the same count is listed too. |
| CollaboratorPerformance.TiedPairInTableOrder | src/visualizacao/dashboards/desenvolvimento_pessoas/performance.py:125 | Two rows with the same count are listed in table order. |
| CollaboratorPerformance.TopByMeanService | src/visualizacao/dashboards/desenvolvimento_pessoas/performance.py:131 | The list has min(10, n) rows drawn from the table and is non-decreasing in mean time. No row left out is faster than a listed row. Of rows with equal means, the listed ones are the earliest in the table, in table order. |
| CollaboratorPerformance.TiedEarlierListedByMeanService | src/visualizacao/dashboards/desenvolvimento_pessoas/performance.py:131 | If a row is listed by mean time, every earlier table row with the same mean is listed too. |
| CollaboratorPerformance.PeriodTickets | backup/performance.py:53-58 | An active shift selection on a table without a `turno` column fails. Otherwise the tickets kept are exactly those withdrawn in the period whose `turno` column equals the selection. |
| CollaboratorPerformance.CountRows | backup/performance.py:60 | Row i holds key i and the size of its group. |
| CollaboratorPerformance.PeriodCounts | backup/performance.py:60 | Every collaborator of the period appears once, with a count equal to their ticket count, which is at least 1. |
| CollaboratorPerformance.CountOf | backup/performance.py:70-71 | A collaborator missing from period 1 gets 0. Otherwise they get the count of their first row. |
| CollaboratorPerformance.FillNaN | backup/performance.py:76 | NaN becomes 0 and every other value is unchanged. |
| CollaboratorPerformance.LeftJoin | backup/performance.py:70-76 | There is one row per period-2 row, in order. Each row holds that row's collaborator and count, the period-1 count after the zero fill, and the filled variation. |
| CollaboratorPerformance.CountVariation | backup/performance.py:74-76 | A period-2 count of at least 1 never gives NaN, so the zero fill never fires. A period-1 count of 0 gives +∞, and a positive one a finite variation. |
| CollaboratorPerformance.Joined | backup/performance.py:63-76 | The merged rows name exactly the period-2 collaborators, once each. Each row holds both periods' true ticket counts and their variation. |
| CollaboratorPerformance.JoinedRow | backup/performance.py:70-76 | Each merged row agrees with both periods' tickets. |
| CollaboratorPerformance.AbsentCountsZero | backup/performance.py:70-71 | The filled period-1 count equals the collaborator's real period-1 ticket count, including when that count is zero. |
| CollaboratorPerformance.Ranking | backup/performance.py:70-79 | Same rows as the merge, each collaborator once, ordered by period-2 count descending. |
| CollaboratorPerformance.RankingKeys | backup/performance.py:79 | Sorting keeps the set of collaborators and their distinctness. |
| CollaboratorPerformance.RankingRows | backup/performance.py:79 | Every sorted row is one of the merged rows. |
| CollaboratorPerformance.ComparePeriods | backup/performance.py:49-79 | It fails exactly when a shift is selected and the table has no `turno` column. Otherwise it is the ranking of period 2 against period 1, both filtered the same way. |
| CollaboratorPerformance.OnlyBasePeriodCollaborators | backup/performance.py:63-70 | A collaborator is ranked iff they have a base-period ticket passing the shift filter. Collaborators seen only in period 1 are dropped. |
| IdleTime.KeyLtIsStrictTotalOrder | backup/ociosidade.py:19 | The (collaborator, date) key order is a strict total order. |
| IdleTime.DayGroup | backup/ociosidade.py:19 | A day's group is exactly the collaborator's selected tickets that started on that date, and it is never empty. |
| IdleTime.DayRow | backup/ociosidade.py:19-43 | A row carries its key and a ticket count of at least 1. Idle plus total service equals working time exactly, in minutes. |
| IdleTime.DaySpan | backup/ociosidade.py:20-35 | First and last are the earliest and latest starts of the day, so first ≤ last, and both fall on that date. Working time is the span less 60 × lunch seconds; total service is the summed service time. |
| IdleTime.DayRowsKeyed | backup/ociosidade.py:19-27 | Row i carries key i, and every row is the aggregate of its own key. |
| IdleTime.DayRowCounts | backup/ociosidade.py:21 | The rows' counts add up to the groups' sizes. |
| IdleTime.IdleTimes | backup/ociosidade.py:7-45 | There is one row per collaborator and service date with a base-period ticket, in ascending key order. The counts add up to the number of selected tickets. |
| IdleTime.SingleTicketDay | backup/ociosidade.py:30-38 | A single-ticket day has a zero span, so its idle time is −(lunch + service) and therefore negative. |
| IdleTime.IdleShare | backup/ociosidade.py:122-136 | An empty table gives NaN as the idle share. |
| IdleTime.IdleAndServiceFillTheWork | backup/ociosidade.py:38-43 | Summed over the rows, idle plus service equals working time. |
| IdleTime.TotalServiceNonNegative | backup/ociosidade.py:22 | No row has a negative service total. |
| IdleTime.IdleWarningRule | backup/ociosidade.py:136-168 | The warning fires iff the table is non-empty, the mean working time is not zero, and mean idle over mean work exceeds 30 percent, strictly. |
| IdleTime.WarningRule | backup/ociosidade.py:136-168 | The same condition, for any rows satisfying the idle identity. |
| IdleTime.ShareWarning | backup/ociosidade.py:136-168 | Over a zero denominator the share is never above 30. |
| Occurrences.UserTickets | src/visualizacao/dashboards/desenvolvimento_pessoas/ocorrencias.py:23 | Exactly the collaborator's selected tickets. |
| Occurrences.SlowTickets | src/visualizacao/dashboards/desenvolvimento_pessoas/ocorrencias.py:27-31 | Exactly the collaborator's tickets of the operation whose service time exceeds 2 × target × 60 seconds, strictly, with their multiplicities. |
| Occurrences.SlowEntry | src/visualizacao/dashboards/desenvolvimento_pessoas/ocorrencias.py:33-41 | A slow-service entry exists iff at least one such ticket exists. It is keyed by the collaborator, the slow-service kind and the operation. |
| Occurrences.SlowEntryFields | src/visualizacao/dashboards/desenvolvimento_pessoas/ocorrencias.py:36-40 | The entry counts the slow tickets, gives their mean service time in minutes, and dates itself by the earliest of their start dates. |
| Occurrences.SortedStarts | src/visualizacao/dashboards/desenvolvimento_pessoas/ocorrencias.py:44 | The collaborator's starts, as a permutation, in non-decreasing order. |
| Occurrences.Intervals | src/visualizacao/dashboards/desenvolvimento_pessoas/ocorrencias.py:45 | There is one gap per start after the first, and each is the difference from its predecessor. |
| Occurrences.LongIntervals | src/visualizacao/dashboards/desenvolvimento_pessoas/ocorrencias.py:44-47 | Exactly the gaps longer than 3600 seconds, strictly. There are at most n − 1 of them, and none for at most one ticket. |
| Occurrences.LongIntervalIsBetweenConsecutiveStarts | src/visualizacao/dashboards/desenvolvimento_pessoas/ocorrencias.py:44-47 | A long interval is the difference between two neighbouring sorted starts and exceeds an hour. |
| Occurrences.GapEntry | src/visualizacao/dashboards/desenvolvimento_pessoas/ocorrencias.py:49-57 | A long-interval entry exists iff some gap is long. It is keyed by the collaborator, the long-interval kind and "Todas". |
| Occurrences.GapEntryFields | src/visualizacao/dashboards/desenvolvimento_pessoas/ocorrencias.py:54-56 | The entry counts the long gaps, gives their mean in minutes, and dates itself by the earliest start that ends one. |
| Occurrences.UserOperations | src/visualizacao/dashboards/desenvolvimento_pessoas/ocorrencias.py:26 | The collaborator's operations, each once. |
| Occurrences.SlowEntries | src/visualizacao/dashboards/desenvolvimento_pessoas/ocorrencias.py:26-41 | It fails iff a listed operation has no target, reporting one such operation. Otherwise it gives exactly one entry per listed operation with a slow ticket, and nothing else. |
| Occurrences.UserEntries | src/visualizacao/dashboards/desenvolvimento_pessoas/ocorrencias.py:23-57 | It fails iff one of the collaborator's operations has no target. Otherwise it gives that collaborator's slow-service entries and at most one long-interval entry, all with distinct keys. |
| Occurrences.AllEntries | src/visualizacao/dashboards/desenvolvimento_pessoas/ocorrencias.py:22-57 | It fails iff a listed collaborator's ticket has an operation without a target. Otherwise it holds every listed collaborator's entries and nothing else. |
| Occurrences.IdentifyOccurrences | src/visualizacao/dashboards/desenvolvimento_pessoas/ocorrencias.py:7-59 | Over the base period's tickets: it fails iff some operation there has no target row. Otherwise every entry is the one its collaborator's tickets raise for its kind and operation. Every slow ticket and every long gap raises its entry. No (collaborator, kind, operation) appears twice, so there is at most one long-interval entry per collaborator. |
| Occurrences.EveryUserListed | src/visualizacao/dashboards/desenvolvimento_pessoas/ocorrencias.py:22 | Every selected collaborator is visited by the outer loop. |
| Occurrences.SlowTicketIsReported | src/visualizacao/dashboards/desenvolvimento_pessoas/ocorrencias.py:31-41 | When the result is not an error, a slow base-period ticket raises an entry for its collaborator and operation. |
| Occurrences.LongIntervalIsReported | src/visualizacao/dashboards/desenvolvimento_pessoas/ocorrencias.py:44-57 | When the result is not an error, a collaborator with a long gap has a long-interval entry. |
| ServiceTimes.GroupRow | src/visualizacao/dashboards/operacoes_clientes/tempo_atend.py:24-30 | A group's row carries its key and its size, which is at least 1. |
| ServiceTimes.GroupFacts | src/visualizacao/dashboards/operacoes_clientes/tempo_atend.py:24-30 | The row's mean is the group's total service time over its count, divided by 60. |
| ServiceTimes.MeanNonNegative | src/visualizacao/dashboards/operacoes_clientes/tempo_atend.py:30 | No mean service time is negative. |
| ServiceTimes.RowCounts | src/visualizacao/dashboards/operacoes_clientes/tempo_atend.py:26 | The rows' counts add up to the groups' sizes. |
| ServiceTimes.PeriodTimes | src/visualizacao/dashboards/operacoes_clientes/tempo_atend.py:7-32 | There is one row per selected group, in ascending key order, carrying that group's count and mean. The counts add up to the number of selected tickets. |
| ServiceTimes.Lookup | src/visualizacao/dashboards/operacoes_clientes/tempo_atend.py:37-42 | A row with the key is found iff one exists, and the row found carries that key. |
| ServiceTimes.InnerJoin | src/visualizacao/dashboards/operacoes_clientes/tempo_atend.py:37-42 | The joined keys are exactly those present on both sides. Each joined row merges one row from each side with that key. |
| ServiceTimes.InnerJoinKeepsOrder | src/visualizacao/dashboards/operacoes_clientes/tempo_atend.py:37-42 | The join keeps the left side's ascending key order. |
| ServiceTimes.Compare | src/visualizacao/dashboards/operacoes_clientes/tempo_atend.py:139-146 | The comparison lists exactly the groups present in both periods, ascending. Each row holds both periods' true counts and means and the variation (p2 − p1)/p1·100. |
| ServiceTimes.CompareKeysDistinct | src/visualizacao/dashboards/operacoes_clientes/tempo_atend.py:139-144 | No group appears twice in the comparison. |
| ServiceTimes.GreenIffFaster | src/visualizacao/dashboards/operacoes_clientes/tempo_atend.py:45-98 | A group is annotated green iff its period-2 mean is below its period-1 mean. |
| ServiceTimes.NegativeVariation | src/visualizacao/dashboards/operacoes_clientes/tempo_atend.py:45-46 | Against a positive base, a variation is negative iff the new value is smaller. |
| ServiceTimes.Improvements | src/visualizacao/dashboards/operacoes_clientes/tempo_atend.py:149 | Exactly the rows with a variation strictly below zero, each as often as in the table, most negative first. |
| ServiceTimes.Worsenings | src/visualizacao/dashboards/operacoes_clientes/tempo_atend.py:150 | Exactly the rows with a variation strictly above zero, each as often as in the table, largest first. |
| ServiceTimes.SplitIsStrict | src/visualizacao/dashboards/operacoes_clientes/tempo_atend.py:149-150 | No row is in both lists. An unchanged row with a non-zero base, and a row with a NaN variation, are in neither. |
| ServiceTimes.TopImprovements | src/visualizacao/dashboards/operacoes_clientes/tempo_atend.py:163 | At most three improvements are shown, and none left out is more negative than one shown. |
| ServiceTimes.TopWorsenings | src/visualizacao/dashboards/operacoes_clientes/tempo_atend.py:168 | At most three worsenings are shown, and none left out is larger than one shown. |
| ServiceTimes.OverallMean | src/visualizacao/dashboards/operacoes_clientes/tempo_atend.py:155-156 | An empty comparison gives NaN as the overall mean. |
| ServiceTimes.OverallVariation | src/visualizacao/dashboards/operacoes_clientes/tempo_atend.py:157 | An empty comparison gives NaN as the overall variation. |
| ServiceTimes.OverallMeanIsTotalOverCount | src/visualizacao/dashboards/operacoes_clientes/tempo_atend.py:155-156 | For a non-empty comparison, the count-weighted mean equals the joined groups' total service time over their total ticket count, in minutes. |
| ServiceTimes.WeightedSums | src/visualizacao/dashboards/operacoes_clientes/tempo_atend.py:155-156 | Summed mean × count, back in seconds, is the joined groups' total service time. The summed counts are their sizes. |
| StayTimes.StayGroupRow | src/visualizacao/dashboards/operacoes_clientes/permanencia.py:22-32 | A group's row carries its key and its size, which is at least 1. |
| StayTimes.StayRowCounts | src/visualizacao/dashboards/operacoes_clientes/permanencia.py:26 | The rows' counts add up to the groups' sizes. |
| StayTimes.StayTimes | src/visualizacao/dashboards/operacoes_clientes/permanencia.py:6-34 | There is one row per group of the base period's selection, in ascending key order. The counts add up to the selected tickets. |
| StayTimes.StaySelectionRule | src/visualizacao/dashboards/operacoes_clientes/permanencia.py:11-19 | A ticket counts iff it was withdrawn in the base period and, when grouping by operation with a client selection other than ["Todos"], its client is selected. |
| StayTimes.StayBetweenExtremes | src/visualizacao/dashboards/operacoes_clientes/permanencia.py:25-32 | A group's mean stay lies between its shortest and longest ticket stay, in minutes. |
| StayTimes.AboveTargetRows | src/visualizacao/dashboards/operacoes_clientes/permanencia.py:128 | Exactly the rows whose mean stay exceeds the target, strictly, with their multiplicities. |
| StayTimes.AboveTargetIffTotalExceeds | src/visualizacao/dashboards/operacoes_clientes/permanencia.py:83-128 | A group is above the target, and so annotated red, iff its total stay exceeds target × 60 × count seconds. |
| StayTimes.TopAboveTarget | src/visualizacao/dashboards/operacoes_clientes/permanencia.py:133-135 | At most three above-target rows are listed, longest stay first, and none left out is longer than one listed. |
| StayTimes.TopAboveTargetComplete | src/visualizacao/dashboards/operacoes_clientes/permanencia.py:135 | With at most three groups above the target, all of them are listed. |
| StayTimes.ChartOrder | src/visualizacao/dashboards/operacoes_clientes/permanencia.py:39 | The chart rows are a permutation of the table, in ascending mean stay. |
| StayTimes.MeanStay | src/visualizacao/dashboards/operacoes_clientes/permanencia.py:127 | The overall mean stay is NaN iff the table is empty. |
| StayTimes.WaitShare | src/visualizacao/dashboards/operacoes_clientes/permanencia.py:139-143 | An empty table gives NaN as the wait share. |
| StayTimes.ServiceShare | src/visualizacao/dashboards/operacoes_clientes/permanencia.py:140-144 | An empty table gives NaN as the service share. |
| StayTimes.RowStayComposes | src/visualizacao/dashboards/operacoes_clientes/permanencia.py:22-32 | When each ticket's stay is its wait plus its service, each group's mean stay is its mean wait plus its mean service. |
| StayTimes.MeansOfRowsCompose | src/visualizacao/dashboards/operacoes_clientes/permanencia.py:127-140 | Under the same identity, the overall mean stay is the overall mean wait plus the overall mean service. |
| StayTimes.SharesAddUp | src/visualizacao/dashboards/operacoes_clientes/permanencia.py:139-144 | Under the same identity, with a non-zero mean stay, the wait and service shares are finite and add up to 100. |
| CollaboratorTimes.PairLtIsStrictTotalOrder | backup/tempo_atend.py:20 | The (collaborator, operation) key order is a strict total order. |
| CollaboratorTimes.PairGroup | backup/tempo_atend.py:20 | A pair's group is exactly the selected tickets of that collaborator and operation, and it is never empty. |
| CollaboratorTimes.PairRow | backup/tempo_atend.py:20-31 | A pair's row carries its key and its size, which is at least 1. |
| CollaboratorTimes.PairRowOrdered | backup/tempo_atend.py:22-31 | Every row has minimum ≤ mean ≤ maximum, also after the division by 60. |
| CollaboratorTimes.PairRowExtremes | backup/tempo_atend.py:22-31 | A row's minimum and maximum are the shortest and longest service times of its tickets, in minutes, and both are attained. |
| CollaboratorTimes.PairRowCounts | backup/tempo_atend.py:21 | The rows' counts add up to the groups' sizes. |
| CollaboratorTimes.CollaboratorTimes | backup/tempo_atend.py:7-33 | There is one row per (collaborator, operation) among the base period's tickets, in ascending key order. The counts add up to the selected tickets. |
| CollaboratorTimes.RowOf | backup/tempo_atend.py:20-31 | Every listed pair has its row in the table. |
| CollaboratorTimes.CollaboratorChoices | backup/tempo_atend.py:72 | Exactly the table's collaborators, each once, ascending. |
| CollaboratorTimes.OperationChoices | backup/tempo_atend.py:79-82 | "Todas", then exactly the table's operations, each once, ascending. |
| CollaboratorTimes.Shown | backup/tempo_atend.py:86-88 | Exactly the rows of the chosen collaborator and, unless "Todas" is chosen, of the chosen operation. No row appears more often than in the table. |
| CollaboratorTimes.HeadlineOf | backup/tempo_atend.py:96-114 | The three headline figures are NaN iff nothing is shown, and are finite otherwise. |
| CollaboratorTimes.HeadlineOrdered | backup/tempo_atend.py:96-114 | Headline minimum ≤ headline mean ≤ headline maximum. |
| CollaboratorTimes.HeadlineMinIsShortestService | backup/tempo_atend.py:86-114 | For the tab's own table, every base-period ticket of the chosen collaborator (and of the chosen operation, unless "Todas") has a service time between the headline minimum and maximum, in minutes. Both the minimum and the maximum are the service time of some such ticket. |
| CollaboratorTimes.InsightOf | backup/tempo_atend.py:143-144 | The insight keeps the row's operation and mean and the target, and its variation is finite for a positive target. |
| CollaboratorTimes.WarningRule | backup/tempo_atend.py:144-151 | The warning fires iff the mean is more than 20 percent away from the target, strictly. With a zero target it fires exactly when the mean is non-zero. |
| CollaboratorTimes.FirstMissing | backup/tempo_atend.py:142-143 | There is no missing position iff every shown row's operation has a target. Otherwise the position found is the first one that lacks a target. |
| CollaboratorTimes.Insights | backup/tempo_atend.py:142-151 | It fails iff a shown row's operation has no target, reporting the first such row's operation. Otherwise there is one insight per shown row, in order, each against that operation's first target row. |
| ExtReal.PctChangeSign | src/visualizacao/dashboards/operacoes_clientes/tempo_atend.py:145-146 | Against a positive base, a percentage change is finite and has the sign of the difference. |
| ExtReal.PctChangeZeroBase | backup/performance.py:74-75 | From a zero base, a positive value gives +∞ and zero gives NaN, never a finite 0. |
| ExtReal.LeTotal | src/visualizacao/dashboards/operacoes_clientes/tempo_atend.py:149 | The sort order on extended values, with NaN last, is total. |
| ExtReal.LeTransitive | src/visualizacao/dashboards/operacoes_clientes/tempo_atend.py:149 | That order is transitive. |
| ExtReal.DescLeReverses | src/visualizacao/dashboards/operacoes_clientes/tempo_atend.py:150 | The descending order reverses the ascending one on non-NaN values. |
| Sorting.SortAsc | src/visualizacao/dashboards/operacoes_clientes/permanencia.py:39 | A permutation of its input, ordered ascending with NaN last. Rows with equal keys keep their input order. |
| Sorting.SortDesc | backup/performance.py:79 | A permutation of its input, ordered descending with NaN last. Rows with equal keys keep their input order. |
| Sorting.Smallest | src/visualizacao/dashboards/desenvolvimento_pessoas/performance.py:131 | `nsmallest(n)`: min(n, len) rows drawn from the input, ascending, none left out smaller than one kept. Of rows with equal keys, the kept ones are the earliest, in input order. |
| Sorting.Largest | src/visualizacao/dashboards/desenvolvimento_pessoas/performance.py:125 | `nlargest(n)`: min(n, len) rows drawn from the input, descending, none left out larger than one kept. Of rows with equal keys, the kept ones are the earliest, in input order. |
| Sorting.EarlierTieKept | src/visualizacao/dashboards/desenvolvimento_pessoas/performance.py:125 | Under the keep-first rule, a kept row brings along every earlier row with the same key. |
| Seqs.SortedKeys | src/visualizacao/dashboards/desenvolvimento_pessoas/performance.py:29 | Group-by keys: exactly the values that occur, strictly ascending. |
| Seqs.Unique | src/visualizacao/dashboards/desenvolvimento_pessoas/ocorrencias.py:22 | `unique()`: exactly the values that occur, each once. |
| Seqs.UniqueInFirstAppearanceOrder | src/visualizacao/dashboards/desenvolvimento_pessoas/ocorrencias.py:22 | `unique()` lists the values in the order in which they first occur. |
| Seqs.GroupSizesPartition | src/visualizacao/dashboards/desenvolvimento_pessoas/performance.py:29-30 | When every row's key is listed once, the groups' sizes add up to the number of rows. |

## Left out

- The Streamlit widgets, tabs, texts and the try/except error display are presentation only. The widgets' values arrive as parameters, and the current date arrives as a day number.
- The Plotly figures are presentation only. This covers every `criar_grafico_*` function and the target trace at src/visualizacao/dashboards/operacoes_clientes/tempo_atend.py:81.
- The chart's sort by period-2 mean (src/visualizacao/dashboards/operacoes_clientes/tempo_atend.py:49) feeds only the figure and is left out. The annotation colour rule that the figure uses is modelled.
- Standard deviations, and the outlier rules built on them, are left out. This covers `desvio_padrao`, backup/performance.py:230-231 and backup/ociosidade.py:146-157. They need square roots and floating-point behaviour.
- The box plot of backup/tempo_atend.py:119-130 re-selects tickets only to draw them.
- src/visualizacao/dashboards/desenvolvimento_pessoas/ranking.py is not part of this model. It is a separate layout over fixed demonstration data, not the ticket table.
- src/visualizacao/gerar_dashboard.py and app.py are not part of this model. They only dispatch tabs and set up imports.
- Spreadsheet loading, column normalisation and number formatting are left out. The ticket table arrives already parsed.
- Floating-point rounding is not modelled, because means and percentages are exact reals. Empty (NaN) cells in the ticket table are not modelled either, so a group's count is its number of rows.
- `sort_values` uses an unstable quicksort, which may order tied rows differently. The model fixes its tie order to the stable one, which is one of the orders that quicksort may produce.
- A selectbox over an empty option list returns nothing. The collaborator picker of backup/tempo_atend.py is modelled as a chosen string, so in that case the shown rows are empty.
- The shift filter of the two performance functions takes one string, which is how the tabs call them. The sidebar's shift multiselect list is carried in the filter record, but no modelled computation reads it.
- The lunch slider's range (30..120 in steps of 15, default 60) is the subset type `IdleTime.LunchSlider`. `IdleTime.IdleTimes` itself accepts any whole number of minutes, as the function it models does.
- StayTimes.SharesAddUp is proved only when every ticket's stay equals its wait plus its service. The table does not enforce that identity.
- CollaboratorPerformance.VariationsSumToZero is proved for a non-zero overall mean. With a zero mean every variation is NaN or infinite.
- ServiceTimes.OverallMean states only the empty case in its own contract. Its meaning for a non-empty join is proved by ServiceTimes.OverallMeanIsTotalOverCount.
- IdleTime.IdleShare states only the empty case in its own contract. For a non-empty table, IdleTime.IdleWarningRule characterises when it exceeds 30.
- StayTimes.WaitShare states only the empty case in its own contract. For a non-empty table, StayTimes.SharesAddUp proves it finite and complementary to the service share.
- StayTimes.ServiceShare states only the empty case in its own contract. StayTimes.SharesAddUp covers the non-empty case.
- ServiceTimes.OverallVariation states only the empty case. For a non-empty join it is the percentage change between the two overall means that ServiceTimes.OverallMeanIsTotalOverCount characterises.
