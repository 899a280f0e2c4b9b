# Financial-transactions dashboard: outlier detector and keyword chatbot

This Dafny project models the two pieces of logic in a Streamlit dashboard
over a CSV of financial transactions:

* **The IQR outlier detector** of the outlier page
  (`pages/4_Outlier_Detection.py`). It drops missing amounts and takes the
  15th and 85th percentiles with pandas' default linear interpolation. It
  derives `iqr = q3 - q1`, `upper = q3 + k * iqr` and `lower = q1 - k * iqr`.
  It then flags every row whose amount lies above `upper`, or also below
  `lower` when the "also flag unusually small values" toggle is on. The
  levels are 0.15 and 0.85 rather than the textbook 0.25 and 0.75.
* **The keyword-routed chatbot** (`pages/3_Mockup_Chatbot.py`). It lower-cases
  the question and tests seven substring rules in a fixed order:
  total spend, row count, top merchants, top categories, payment mix,
  outlier summary and date range. The first rule that fires answers. Each
  rule first checks that its columns exist, and a question that no rule
  accepts gets a fixed help text. Each non-empty input appends the user's
  question and the assistant's answer to the chat history. The history
  functions take the answering function as a parameter. On the page it is
  `Chatbot.Responder(t)`, which is `answer_query` over the loaded table, so
  the history's properties hold for any answerer.

The table is an already-parsed `seq<Record>` plus the set of columns it has.
An unparseable amount, date or label is `None`. Amounts are Dafny `real`s.
Answers are structured values (`Reply(intent, body)`), so the model can
state which rule fired and what it computed. The fixed "I can't find …"
messages and the help string are kept verbatim.

Modules:

| file | module | contents |
|---|---|---|
| `wrappers.dfy` | `Wrappers` | `Option` for missing cells |
| `seqs.dfy` | `Seqs` | boolean-mask selection, subsequences, distinctness, insertion sort by a score, sums |
| `dataset.dfy` | `Dataset` | columns, records, the table, sums of present amounts, `dropna` |
| `quantiles.dfy` | `Quantiles` | linear-interpolation percentiles and their monotonicity |
| `outliers.dfy` | `Outliers` | thresholds, the row mask, the detector and its properties |
| `aggregate.dfy` | `Aggregate` | group-by keys and sums, top-N groups, payment mix, date span |
| `routing.dfy` | `Routing` | lower-casing, substring search, the rule table, first-match routing |
| `chatbot.dfy` | `Chatbot` | `answer_query`, its per-rule properties, the chat history |

## Model

| member | source | states |
|---|---|---|
| `Seqs.Select` | pages/4_Outlier_Detection.py:32 | `df[mask]` keeps exactly the rows whose mask entry is true. The rows are unchanged and keep their input order (a subsequence), and there are as many of them as true mask entries. |
| `Seqs.SelectAppend` | pages/4_Outlier_Detection.py:32 | Selecting from two concatenated row blocks with their concatenated masks gives the two selections one after the other. |
| `Seqs.SelectSingle` | pages/4_Outlier_Detection.py:32 | A single row is kept exactly when its mask entry is true. With `SelectAppend` this fixes the selection, including repeated rows, position by position. |
| `Seqs.SelectMonotone` | pages/4_Outlier_Detection.py:25-32 | If one mask implies another row by row, the first selection is a subsequence of the second. |
| `Seqs.SubsequenceBounds` | pages/4_Outlier_Detection.py:32 | A subsequence is no longer than its source and contains only rows of the source. |
| `Seqs.SortDescending` | pages/3_Mockup_Chatbot.py:52 | `sort_values(ascending=False)` returns a permutation of its input that is sorted by non-increasing score. |
| `Seqs.SortKeepsDistinct` | pages/3_Mockup_Chatbot.py:51-52 | Sorting distinct group labels keeps them distinct. |
| `Seqs.SortKeepsSum` | pages/3_Mockup_Chatbot.py:68 | Sorting does not change the sum of the scores. |
| `Dataset.PresentAmounts` | pages/4_Outlier_Detection.py:16 | `dropna` keeps every present amount and only present amounts, with multiplicity: each value occurs as often as rows carry it. It is empty exactly when every amount is missing. |
| `Dataset.TotalIsSumOfPresent` | pages/3_Mockup_Chatbot.py:42 | The NaN-skipping `sum` of the amount column equals the plain sum of the present amounts. |
| `Quantiles.SortAscending` | pages/4_Outlier_Detection.py:17 | The order statistics are a sorted permutation of the amounts. |
| `Quantiles.Interpolate` | pages/4_Outlier_Detection.py:17 | A linearly interpolated percentile lies between the smallest and the largest value. |
| `Quantiles.InterpolateAtIndex` | pages/4_Outlier_Detection.py:17 | When the position `(n - 1) * p` is a whole index `j`, the percentile is the `j`-th smallest value itself, with no interpolation. |
| `Quantiles.FifteenthPercentileExamples` | pages/4_Outlier_Detection.py:17 | The 15th percentile of `[0, 1, 1]` is 0.3 and that of `[0, 1]` is 0.15: the position is `(n - 1) * 0.15`, between the two neighbouring order statistics. |
| `Quantiles.InterpolateMonotone` | pages/4_Outlier_Detection.py:17 | A higher percentile level never gives a lower percentile. |
| `Quantiles.Quantile` | pages/4_Outlier_Detection.py:17 | The percentile of any non-empty collection lies within the range of its values. |
| `Quantiles.AscendingUnique` | pages/4_Outlier_Detection.py:17 | There is only one ascending arrangement of a collection of values, so the order statistics are determined by the values. |
| `Quantiles.QuantileOfMultiset` | pages/4_Outlier_Detection.py:16-17 | The percentile depends only on the values and their multiplicities, not on the row order. |
| `Quantiles.QuantileAtIndex` | pages/4_Outlier_Detection.py:17 | At a level whose position is a whole index `j`, the percentile is the `j`-th smallest value. |
| `Quantiles.QuantileEnds` | pages/4_Outlier_Detection.py:17 | Level 0 gives the smallest value and level 1 the largest. Both occur in the collection, and every value lies between them. |
| `Quantiles.QuantileMonotone` | pages/4_Outlier_Detection.py:17-18 | Percentiles of the same values are ordered like their levels, so the 15th is at most the 85th. |
| `Outliers.ComputeThresholds` | pages/4_Outlier_Detection.py:16-23 | Thresholds exist exactly when some amount is present. Otherwise pandas yields NaN and nothing compares true. |
| `Outliers.Derive` | pages/4_Outlier_Detection.py:18-23 | The thresholds keep `q1` and `q3`, the spread is `q3 - q1`, and `upper` lies as far above `q3` as `lower` lies below `q1`. For `q1 <= q3` and `k >= 0`: `lower <= q1 <= q3 <= upper`. |
| `Outliers.ThresholdsSpread` | pages/4_Outlier_Detection.py:17-18 | `iqr >= 0`. `q1` is at least some present amount, and `q3` is at most some present amount. |
| `Outliers.ThresholdsOrdered` | pages/4_Outlier_Detection.py:19-23 | For `k >= 0`: `lower <= q1 <= q3 <= upper`. |
| `Outliers.UpperMonotone` | pages/4_Outlier_Detection.py:21 | A larger `k` never lowers `upper`. |
| `Outliers.Mask` | pages/4_Outlier_Detection.py:25-29 | The mask has one entry per row, true exactly when the row is flagged, so its number of true entries is the number of flagged rows. |
| `Outliers.Classify` | pages/4_Outlier_Detection.py:25-32 | Applying thresholds keeps an order-preserving subsequence of the rows. Every flagged row is in it and every member is flagged. Its length is the number of flagged rows, and its total is the sum of the flagged rows' amounts. |
| `Outliers.SelectedTotal` | pages/3_Mockup_Chatbot.py:78-80 | The summed amount of the masked rows equals the summed amount of the flagged rows. |
| `Outliers.Detect` | pages/4_Outlier_Detection.py:16-37 | The outliers are a subsequence of the rows. Every flagged row is in it and every member is flagged. Their number, which the page reports, is the number of flagged rows. Their total is the sum of the flagged rows' amounts. |
| `Outliers.ToggleOffIsAboveUpper` | pages/4_Outlier_Detection.py:28-32 | With the toggle off, a row is an outlier if and only if its amount is present and above `upper`. |
| `Outliers.ToggleOnIsOutsideRange` | pages/4_Outlier_Detection.py:25-26 | With the toggle on, a row is an outlier if and only if its amount is present and above `upper` or below `lower`. |
| `Outliers.ToggleOnAddsRows` | pages/4_Outlier_Detection.py:25-32 | The toggle-off outliers form a subsequence of the toggle-on outliers, so there are never more of them. |
| `Outliers.MissingNeverFlagged` | pages/4_Outlier_Detection.py:10-16 | A row with a missing amount is never an outlier. An empty or all-missing amount column gives no outliers and a total of 0. |
| `Outliers.MultiplierMonotone` | pages/4_Outlier_Detection.py:19-29 | Raising `k` never adds toggle-off outliers: the new ones are a subsequence of the old ones. |
| `Aggregate.Keys` | pages/3_Mockup_Chatbot.py:51 | The group labels are distinct, and they are exactly the labels present in the column. Missing labels form no group. |
| `Aggregate.LabelledCount` | pages/3_Mockup_Chatbot.py:68 | The normalising count for `value_counts(normalize=True)` is zero exactly when no label is present. |
| `Aggregate.GroupsPartition` | pages/3_Mockup_Chatbot.py:51 | The group sums over all labels add up to the summed weight of the labelled rows: group-by loses and invents nothing. |
| `Aggregate.TopGroups` | pages/3_Mockup_Chatbot.py:51-53 | `head(n)` returns `min(n, number of groups)` rows. |
| `Aggregate.TopGroupsAreTop` | pages/3_Mockup_Chatbot.py:51-53 | The top-N rows are distinct groups with their true summed amounts, in non-increasing order. No group left out has a larger sum than a listed one. |
| `Aggregate.PaymentMix` | pages/3_Mockup_Chatbot.py:68 | `value_counts(normalize=True).mul(100)` has one share per payment method present. Its contents and total are stated by `Aggregate.PaymentMixShares` and `Aggregate.PaymentMixSumsTo100`. |
| `Aggregate.PaymentMixShares` | pages/3_Mockup_Chatbot.py:68 | Each method appears once. Its share times the number of rows with a method is 100 times its count. Shares are in non-increasing order, and the mix is empty only when no row has a method. |
| `Aggregate.PaymentMixSumsTo100` | pages/3_Mockup_Chatbot.py:68 | Before rounding, the shares of a non-empty mix add up to exactly 100. |
| `Aggregate.DateSpan` | pages/3_Mockup_Chatbot.py:86-88 | The range is absent exactly when no date is present. Otherwise `first <= last`, both are dates that occur, and every present date lies between them. |
| `Routing.Lower` | pages/3_Mockup_Chatbot.py:39 | Lower-casing gives the same text up to letter case, with no upper-case letter left. |
| `Routing.LowerUnique` | pages/3_Mockup_Chatbot.py:39 | Those two properties determine the lower-cased text: any text that has both is `Lower(s)`. |
| `Routing.LowerIdempotent` | pages/3_Mockup_Chatbot.py:39 | Lower-casing an already lower-cased question changes nothing. |
| `Routing.Contains` | pages/3_Mockup_Chatbot.py:41 | `sub in s` holds exactly when `sub` occurs at some index of `s`. |
| `Routing.FirstMatch` | pages/3_Mockup_Chatbot.py:41-91 | The result is the help intent exactly when no rule fires. Otherwise it is the intent of the first rule that fires. |
| `Routing.Route` | pages/3_Mockup_Chatbot.py:39-91 | The question is lower-cased and routed to the help intent exactly when no rule fires, otherwise to the intent of the first rule that fires. `Routing.RoutePriority` states this rule by rule, in both directions. |
| `Routing.RoutePriority` | pages/3_Mockup_Chatbot.py:41-91 | Rule `i` answers exactly when it fires and no earlier rule does. The fallback answers exactly when no rule fires. |
| `Routing.FirstMatchPriority` | pages/3_Mockup_Chatbot.py:41-91 | In an ordered list of rules with distinct intents, rule `i` answers exactly when it fires and no earlier rule fires. |
| `Routing.RouteIgnoresCase` | pages/3_Mockup_Chatbot.py:39 | Questions that differ only in letter case take the same route. |
| `Routing.TotalSpendWins` | pages/3_Mockup_Chatbot.py:41-46 | "total" with "spend" or "amount" always gets the total answer, even if the question also says "count". |
| `Routing.TotalOutranksCount` | pages/3_Mockup_Chatbot.py:39-46 | "Count the TOTAL amount" is routed to the total answer although it says "count" first. |
| `Routing.MerchantsBeforeCategories` | pages/3_Mockup_Chatbot.py:48-62 | A question with "top", "merchant" and "categories" that the first two rules skip gets the merchant ranking. |
| `Routing.TopSize` | pages/3_Mockup_Chatbot.py:49 | N is 10 exactly when the lower-cased question contains "10" (so "100" also gives 10), and 5 otherwise. |
| `Chatbot.Respond` | pages/3_Mockup_Chatbot.py:41-91 | The reply carries the given rule. It is a message exactly for the fallback or when one of the rule's columns is missing. That message is the rule's fixed "I can't find …" text or the verbatim help text, so a missing column never falls through to a later rule. |
| `Chatbot.Answer` | pages/3_Mockup_Chatbot.py:38-91 | The reply carries the routed intent. It is a message exactly for the fallback or when a required column is missing. That message is the rule's fixed "I can't find …" text or the verbatim help text, so a missing column never falls through to a later rule. |
| `Chatbot.AnswerIgnoresCase` | pages/3_Mockup_Chatbot.py:39-91 | Changing letter case never changes the whole answer, including the top-N size. |
| `Chatbot.TotalAnswer` | pages/3_Mockup_Chatbot.py:41-43 | The total is the sum of the present amounts, and 0 (not a message) without an amount column. |
| `Chatbot.CountAnswer` | pages/3_Mockup_Chatbot.py:45-46 | The count is the number of rows, including rows with missing cells. |
| `Chatbot.TopAnswer` | pages/3_Mockup_Chatbot.py:48-64 | When its columns exist, a top-N answer has `min(N, groups)` distinct groups with their summed amounts, largest first, and nothing left out outranks them. `Chatbot.Answer` passes `Routing.TopSize` of the question as N. |
| `Chatbot.MixAnswer` | pages/3_Mockup_Chatbot.py:66-70 | The mix lists exactly the methods that occur, and its shares add up to 100 when it is non-empty. |
| `Aggregate.MixCoversKeys` | pages/3_Mockup_Chatbot.py:68 | Every method that occurs appears in the mix. |
| `Chatbot.OutlierAnswer` | pages/3_Mockup_Chatbot.py:72-82 | The summary's count is the number of rows with a present amount above `q3 + 1.5 * iqr` (`mask.sum()`), with no low-side check. Its total is the sum of those rows' amounts. A row is an outlier exactly when its amount is present and above that threshold. |
| `Chatbot.DateAnswer` | pages/3_Mockup_Chatbot.py:84-89 | With a date column, the date-range answer is the span of the present dates. |
| `Chatbot.Turn` | pages/3_Mockup_Chatbot.py:100-106 | An empty input adds nothing. Otherwise exactly two entries are appended, the user's question and then the assistant's answer to it, and all earlier entries are unchanged. |
| `Chatbot.TurnAnswers` | pages/3_Mockup_Chatbot.py:105-106 | On the page, the appended answer is `answer_query` of the question over the loaded table. |
| `Chatbot.TurnKeepsWellFormed` | pages/3_Mockup_Chatbot.py:100-106 | A turn preserves the history's shape: the greeting, then question/answer pairs in which each answer is the answer to its question. |
| `Chatbot.SessionWellFormed` | pages/3_Mockup_Chatbot.py:19-35 | A session starts with the assistant's greeting alone, stays well formed, and has `1 + 2 * (non-empty inputs)` entries. |
| `Chatbot.SessionExtends` | pages/3_Mockup_Chatbot.py:100-106 | History only grows: each session history is a prefix of every later one. |

## Left out

- Streamlit page setup, widgets, `st.session_state` plumbing, chat rendering, charts and the explanatory prose: these are user interface only.
- Loading and coercing the CSV (`pd.read_csv`, `pd.to_numeric` and `pd.to_datetime` with `errors="coerce"`). The model starts from parsed records with `None` for unparseable cells. A failed load stops the page and is not modelled.
- The CSV export of the outliers (`to_csv(...).encode("utf-8")`) and the `head(20)` preview, because both are I/O and display.
- The outlier page reads `df["amount"]` unconditionally and raises if the column is absent. `Outliers.Detect` therefore takes only the rows. The chatbot's outlier rule checks the column first, and `Chatbot.Answer` models that check.
- Text formatting: thousands separators, 2-decimal rounding, emojis, `to_markdown` tables and `date()` rendering. Answers are structured values, and payment-mix shares are stated before `round(2)`.
- IEEE floating point. Amounts are exact reals, so the "shares sum to 100" fact holds exactly before rounding rather than within a tolerance.
- Routing.LowerChar: lower-cases ASCII letters only. Python's `str.lower` also folds non-ASCII letters, so the case-insensitivity lemmas cover ASCII case changes only.
- Seqs.SortDescending: pandas does not specify the order of groups with equal sums (`sort_values` is not stable by default). The contract promises only a sorted permutation, and the model breaks ties in one fixed way.
- Chatbot.Turn: stores the structured reply instead of its formatted text. The greeting's text is a constant of the page and is modelled as a `Greeting` marker.
- Aggregate.DateSpan: dates are day numbers (`Option<int>`). When every date is missing the source prints `NaT`, and the model returns `None`.
- The slider bounds of `k` (0.5 to 3.0, step 0.1) are not imposed. The detector accepts any real `k`, and the ordering lemma needs only `k >= 0`.
- `pages/1_Dashboard_Analytics.py`, `pages/2_Data_Exploration.py` and `Home.py` are plotting, display and navigation wrappers, and they are not part of this model.
