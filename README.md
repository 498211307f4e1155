# FinCanon core in Dafny

FinCanon answers questions about finance papers by retrieval over a vector store and analyses a portfolio of daily asset returns. This project models the parts of it that are plain logic and proves properties about them:

- **Portfolio analytics** (`src/metrics.py`, `analyze_portfolio`), in modules `Stats` (`stats.dfy`) and `Metrics` (`metrics.dfy`). The function takes a dense T × N frame of daily returns, optional weights and a daily risk-free rate. It returns:
  - the per-asset means and sample standard deviations;
  - the portfolio's daily return `w · μ` and daily volatility `sqrt(wᵀ C w)`, where C is the sample covariance matrix;
  - the guarded Sharpe ratio;
  - the same three figures annualised with a 252-day year.

  The model works over exact reals. A float that pandas or numpy would leave as NaN becomes the value `NaN` of the datatype `Num`. This covers frames with fewer than two rows, and the Sharpe ratio when volatility is not positive.

  The main theorem is `Stats.QuadraticFormIsSampleVariance`: `wᵀ C w` equals the sample variance of the weighted daily series. So it is never negative, and the volatility is a real square root.
- **Chunk metadata and sources** (`src/pipeline.py`), in module `Pipeline` (`pipeline.dfy`).
  - `ingest_pdf` rewrites every chunk's metadata to exactly `title`, `page` and `source`. It takes a 1-based `page_number` as is, and shifts a 0-based `page` by one. This follows Python's truthiness and its `or`.
  - `query_fincanon` returns the first `k` retrieved documents as sources, each with its metadata unchanged. A text of at most 200 characters is kept whole; a text longer than 200 characters is cut to its first 200 followed by `"..."`. `k` defaults to 3.
- **Paper registry** (`ingest_papers.py`), in module `Papers` (`papers.dfy`).
  - `ingest_all_papers` walks the registry. It skips papers already ingested unless forced, reports missing PDFs and failed ingestions as errors, and marks successes as ingested in place. It counts each outcome.
  - `list_papers` groups the papers by category in sorted category order and counts the ingested ones.

Some things are parameters rather than modelled code:
- numpy's square root is the parameter `sqrt`. The lemmas hold for every function obeying `Metrics.IsSqrt`: non-negative, and squaring back to its argument on the non-negative reals.
- Whether a PDF exists is the parameter `fileExists`, applied to the path.
- Whether `ingest_pdf` returns normally is the parameter `ingestOk`, applied to the paper's position in the registry.

`wrappers.dfy` holds the `Option` and `Result` datatypes used throughout.

Points about the code that the contracts make precise:
- `risk_free_rate` is a daily rate, default 0.0 (src/metrics.py:4, 33); the annual Sharpe ratio subtracts it times 252 (src/metrics.py:39). In the model it is the parameter `riskFree` of `Metrics.Analyze`, with the same default.
- Weights are used as given. `np.dot` raises when their length differs from the number of columns (src/metrics.py:23, 31), and that is the only error `Metrics.Analyze` returns.
- Both Sharpe ratios are NaN whenever the volatility is not > 0 (src/metrics.py:33, 39).
- The result has exactly eight keys, and NaN is returned as is (src/metrics.py:41-50).

## Model

| member | source | states |
|---|---|---|
| Stats.SwapSums | src/metrics.py:31-32 | exchanging the two summations of a matrix: Σ_j v_j Σ_t D_tj y_t = Σ_t (Σ_j v_j D_tj) y_t |
| Stats.MeanOfRowDots | src/metrics.py:26-31 | the mean of the weighted daily series equals the weights dotted with the column means, mean(R w) = w · μ |
| Stats.QuadraticFormIsSampleVariance | src/metrics.py:28-32 | wᵀ C w, with C the n−1 sample covariance matrix, equals the sample variance of the weighted series, for every weight vector |
| Stats.QuadraticFormNonNegative | src/metrics.py:28-32 | the portfolio variance wᵀ C w is never negative, whatever the weights (short positions included) |
| Stats.ConstantSeriesHasZeroVariance | src/metrics.py:27 | a series that never changes has sample variance 0 |
| Metrics.ToDictKeys | src/metrics.py:42-43 | `to_dict` has exactly one key per column label |
| Metrics.ToDictEntries | src/metrics.py:42-43 | in `to_dict`, each label maps to the value at its last occurrence |
| Metrics.Analyze | src/metrics.py:4-50 | the result is an error exactly when weights are given whose length differs from the number of assets; otherwise it is the report for the weights in use (given, or equal) |
| Metrics.EqualWeightsSumToOne | src/metrics.py:21-22 | each default weight is 1/N, and the default weights add up to 1 |
| Metrics.OmittedWeightsAreEqualWeights | src/metrics.py:21-23 | omitting the weights gives the same result as passing [1/N]*N |
| Metrics.WeightsAreNotRenormalised | src/metrics.py:23-31 | weights are used as given: scaling them by c scales the daily return by c |
| Metrics.DailyReturnIsMeanOfPortfolioSeries | src/metrics.py:26-31 | with observations present, the daily portfolio return w · μ is the mean of the daily returns of the weighted portfolio |
| Metrics.DefaultReturnIsAverageOfMeans | src/metrics.py:21-31 | with the default weights, the daily portfolio return is the average of the asset means |
| Metrics.DailyVolatilityIsSampleStd | src/metrics.py:28-32 | with T ≥ 2, the daily volatility is a real number ≥ 0 whose square is the sample variance of the weighted series |
| Metrics.SharpeRatioGuard | src/metrics.py:33 | a Sharpe ratio has a value exactly when the volatility is > 0 and the return is a number, and then it equals (return − rf) / volatility |
| Metrics.AnnualSharpeIsScaledDailySharpe | src/metrics.py:36-39 | annual volatility is positive exactly when daily volatility is; the annual Sharpe (252 r − 252 rf)/(√252 σ) equals √252 × daily Sharpe, and the two are NaN together |
| Metrics.AssetEntries | src/metrics.py:26-27 | both per-asset maps have exactly the column labels as keys; an asset's entries are its column mean and its n−1 standard deviation, and NaN without enough rows |
| Metrics.TooFewObservations | src/metrics.py:26-39 | with at least one asset column and fewer than two rows, every volatility and both Sharpe ratios are NaN; the daily return is NaN exactly when there are no rows |
| Metrics.ConstantReturnsHaveZeroVolatility | src/metrics.py:28-32 | returns identical on every day give portfolio volatility 0, whatever the weights |
| Metrics.ConstantReturnsHaveNoSharpe | src/metrics.py:32-39 | returns identical on every day give daily and annual volatility 0 and no Sharpe ratio |
| Metrics.SingleAssetVolatility | src/metrics.py:27-32 | for one asset with weight 1, the portfolio volatility equals that asset's volatility, since std and cov use the same n−1 convention |
| Pipeline.NormalizeChunks | src/pipeline.py:42-55 | each chunk's metadata is replaced by its normalised form and its text is untouched; a chunk whose page cannot be shifted stops the loop, leaving later chunks unchanged |
| Pipeline.NormalizedShape | src/pipeline.py:51-55 | normalised metadata has exactly the keys title, page and source; title is the document title, and source is the chunk's own source if present, else the PDF path |
| Pipeline.PageNumberKept | src/pipeline.py:45-48 | a truthy `page_number` is the page, unshifted, whatever `page` holds |
| Pipeline.ZeroBasedPageShifted | src/pipeline.py:45-49 | an integer `page` with no `page_number` key becomes page + 1, page 0 included |
| Pipeline.NoPageKnown | src/pipeline.py:45-49 | with no `page` key and no (or a None) `page_number`, the page is None |
| Pipeline.FalsyPageNumberFallsBackUnshifted | src/pipeline.py:45-48 | a falsy `page_number` (None or 0) next to a `page` yields the raw `page`, with no shift |
| Pipeline.PageFailsExactlyOnStrings | src/pipeline.py:48-49 | normalisation raises exactly when there is a string `page` and no `page_number` key |
| Pipeline.NormalizingTwiceShiftsAgain | src/pipeline.py:45-55 | normalisation is not idempotent: normalising again adds one more to an integer page |
| Pipeline.BuildSources | src/pipeline.py:95-100 | the sources are the first `k` documents under Python slicing, in order, each with its snippet and its metadata unchanged |
| Pipeline.DefaultSources | src/pipeline.py:79-96 | with the default k = 3, at most three sources are returned, and all documents when there are at most three |
| Pipeline.SnippetBounded | src/pipeline.py:98 | a snippet has at most 203 characters and begins with the first min(len, 200) characters of the text |
| Pipeline.SnippetKeepsShortText | src/pipeline.py:98 | a text of at most 200 characters is returned verbatim; a longer text is returned unchanged only if it is already 200 characters plus "..." |
| Pipeline.SnippetIdempotent | src/pipeline.py:98 | cutting a snippet again changes nothing |
| Papers.Registry.IngestAll | ingest_papers.py:35-91 | the saved registry is each paper after its visit (only successes set `ingested`), and the counters are the tally of the outcomes |
| Papers.TallyAddsUp | ingest_papers.py:38-88 | every visited paper is counted once: ingested + skipped + errors = total |
| Papers.ForceSkipsNothing | ingest_papers.py:59-63 | with `force`, no paper is skipped |
| Papers.SkippedAreTheIngested | ingest_papers.py:53-63 | without `force`, the skipped count is the number of papers already marked ingested |
| Papers.ProcessedRecords | ingest_papers.py:59-88 | a record changes only in `ingested`, which becomes true exactly for successful ingestions; skipped, missing-file and failed papers keep their record, so the flag never goes from true to false |
| Papers.IngestedCountGrows | ingest_papers.py:80-88 | without `force`, the ingested count afterwards is the count before plus the run's successes |
| Papers.IngestedPapersAreSkippedNextTime | ingest_papers.py:59-82 | a paper ingested by one run is skipped by a later run without `force` |
| Papers.Registry.List | ingest_papers.py:107-137 | the groups are in strictly increasing category order, there is one group per category present, each holds exactly its category's papers in registry order, and the counts are the ingested papers and the total |
| Papers.GroupByCategory | ingest_papers.py:115-120 | the grouping loop yields one list per category present, holding that category's papers in registry order |
| Papers.SortNames | ingest_papers.py:122 | sorting distinct names gives the same names in strictly increasing order |
| Papers.CountIngested | ingest_papers.py:134 | the generator sum counts the papers whose `ingested` is true |
| Papers.IngestedCount | ingest_papers.py:133-134 | the ingested count is at most the total |
| Papers.InsertSorted | ingest_papers.py:122 | inserting a new name into a sorted sequence keeps it sorted and adds exactly that name |
| Papers.LessIrreflexive | ingest_papers.py:122 | no string sorts before itself in Python's string order |
| Papers.LessTransitive | ingest_papers.py:122 | Python's string order is transitive |
| Papers.LessTotal | ingest_papers.py:122 | of two different strings, one sorts before the other |
| Papers.FilterContents | ingest_papers.py:115-120 | a group holds exactly the papers of its category, and a category is listed exactly when it has at least one paper |
| Papers.GroupsPartitionPapers | ingest_papers.py:115-122 | over distinct categories covering every paper, the group sizes add up to the number of papers |
| Papers.ListingCoversEveryPaper | ingest_papers.py:115-134 | the listing's groups together hold every paper exactly once |

## Left out

- LLM and vector-store code is not modelled, because it consists of calls to foreign services. This covers embeddings, the Qdrant client and collection, the retriever, the prompt, the QA chain and the generated answer (src/pipeline.py:58-77, 88-91, 105-168). The retrieved documents are an input to `Pipeline.BuildSources`.
- PDF loading and text splitting (src/pipeline.py:25-39) are library calls. The chunks are an input to `Pipeline.NormalizeChunks`.
- `Pipeline.NormalizeChunks` holds the chunks as values in an array. The same chunk object listed twice, which would then be normalised twice, is not modelled.
- Metadata values other than None, int and str are not modelled, for example float, bool or list.
- Registry I/O is not modelled: JSON loading and saving, `print` output and the argparse entry point (ingest_papers.py:16-26, 139-153). The file-existence check and `ingest_pdf` are the parameters `fileExists` and `ingestOk`.
- Registry records are assumed to have every key. A record missing `id`, `filename`, `category`, `title`, `authors` or `year` (a `KeyError`) is not modelled. Neither is an `ingested` value other than a bool or absent.
- An exception from `ingest_pdf` that is not an `Exception` (for example `KeyboardInterrupt`) is not modelled. It would stop the loop instead of counting an error.
- `Papers.PdfPath` joins with "/" and does not model the other rules of `pathlib` joining.
- The following are not modelled: src/backend.py (HTTP endpoints), src/main.py, download_portfolio_data.py (network download), and the test and driver scripts.
- Drawdown, Sortino, beta, correlations, contributions and the optimiser are not modelled, because src/metrics.py does not compute them; test_tier1_metrics.py and test_tier2_metrics.py read keys that the code never produces.
- The per-asset figures `assetMeans` and `assetVols` of a report are maps, so the column order that `to_dict()` keeps in the returned dict is not modelled. No figure depends on that order.
- IEEE floating point is not modelled; all arithmetic is over exact reals. A tiny negative rounding of `wᵀ C w`, which would make numpy's `sqrt` return NaN, cannot arise in the model.
- numpy's square root is the parameter `sqrt`, constrained by `Metrics.IsSqrt`. It is not a defined function.
- The conversion of the frame index to datetimes (src/metrics.py:17-18) is not modelled, because it does not affect any figure.
- The portfolio-context prompt formatting (src/pipeline.py:130-141) is not modelled, because it only formats floats as text.
