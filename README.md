# Hybrid fashion recommender: a Dafny model of its core

This model covers the score-fusion engine of the fashion recommender, the
channel scorers it calls, and the rule-based explanation text.

For a user, `hybrid_recommend` works in this order:
- It asks the collaborative scorer and the content scorer for `top_k * 5` items each.
- It optionally takes the pairs the visual scorer produced for an image query.
- It collapses duplicate ids in each channel to their maximum and min-max normalises each channel.
- It picks the weights: an adaptive collaborative weight `alpha`, and `beta`/`gamma` defaulted from it.
- It merges the channels by a weighted sum, a missing score counting as 0.
- It keeps the catalog items and sorts by descending score.
- It cuts to `top_k`, or re-ranks greedily with Maximal Marginal Relevance (MMR).
- It pads a short list with placeholder-scored ids.

The channel scorers modelled:
- `recommend_items`: a user-row-times-similarity product, with cold-start popularity and seen-item removal.
- `recommend_for_user`: a recency-weighted sum of similarity columns, a 1.2 style boost and seen-item removal.
- `recommend_similar_items`: a similarity row without the query item.
- `build_item_profiles`: the string building of `attr_text` and `text`.

`explain_recommendation` composes a fixed-format sentence.

## Modelling decisions
- Data values:
  - Scores are `real`.
  - A score series (a pandas `Series` indexed by item id) is a `seq<(Item, real)>` in index order, with `Item = string`.
  - A similarity DataFrame is a `Frame`: its labels plus a `map<(Item, Item), real>`.
  - The user-item pivot table is a `UserItemMatrix`.
- Errors are values: `Result` carries `KeyError`, `ValueError` or `IndexError`, as pandas or NumPy would raise them.
  - A channel's `try/except` is `Hybrid.Absorb`.
  - An error that no `except` names propagates out of `Hybrid.Recommend`.
- Imperative code becomes methods proved equal to specification functions:
  - `diversify_mmr`'s `while` loop is `Mmr.DiversifyMmr`, and the pass that rebuilds `mmr_scores` is `Mmr.PassScores`.
  - The scoring loop of `recommend_for_user` is `Content.AccumulateAffinity`.
  - The step-by-step body of `hybrid_recommend` is `Hybrid.HybridRecommend`.
  - The reasons list of `explain_recommendation` is built by appends in `Explain.ExplainRecommendation`.
  - `build_item_profiles` assigns columns on a table object, `Content.ItemTable`.
- The pure parts are functions, with lemmas stating their properties.
- Inputs the core receives from code outside the model are parameters:
  - the similarity frames (TF-IDF and cosine similarity are not modelled);
  - the visual scorer's pairs;
  - the random catalog sample of the content cold start (`coldSample`);
  - the interaction log's `item_id` column, which the fallback reads. Interaction records carry `image_path`, not `item_id`, so this column is an `Option`, and `None` (no such column) raises KeyError as pandas does.
- Behaviour of the code that its comments and names do not suggest:
  - During MMR, a candidate or selected id that is not a label of the similarity frame raises KeyError (`.loc`). A pair of labels that are both present but have no `cell` entry reads 0, as the frame's default.
  - The fallback reads `value_counts().index.difference(present)`. pandas sorts that difference only when `present` is non-empty. So a non-empty short list is padded with the smallest ids it lacks, not the most popular ones. An empty list is padded with the most frequent ids, in frequency order.
  - Padded ids are not checked against the catalog.
  - A channel error other than the one `except` names propagates instead of being read as an empty channel. Examples: a misaligned collaborative frame gives ValueError; a user with interactions but no profile gives IndexError in the content scorer.
  - The collaborative scorer never raises KeyError, so its `except KeyError` is never taken.

## Model

| member | source | states |
|---|---|---|
| Scores.Get | hybrid_recommender.py:107 | the `fillna(0)` reading: an absent id scores 0, and on distinct ids the score is that id's entry |
| Scores.Take | hybrid_recommender.py:126 | `head(n)` is the prefix of length min(n, len) |
| Scores.FilterKeys | hybrid_recommender.py:116-117 | an entry is kept iff it was present and its id's membership is as asked; sortedness and distinct ids are preserved |
| Scores.SortDesc | hybrid_recommender.py:119 | `sort_values(ascending=False)` gives a descending permutation (same multiset) with the same members, keeping distinct ids |
| Scores.TopKWithout | collaborative_recommender.py:48-50 | top-k after dropping a set: at most k, sorted, none dropped, and any other entry left out scores no more than every kept one |
| Scores.Dedup | hybrid_recommender.py:107 | the same members, each once, no longer than the input |
| Records.CatalogIds | hybrid_recommender.py:116 | the catalog id set is exactly the ids of the catalog rows |
| Records.OfUser | content_recommender.py:77 | the interactions kept are exactly the user's |
| Records.OfUserCount | content_recommender.py:77 | each of the user's rows is kept as many times as the log holds it, and no other row is kept |
| Records.OfUserConcat | content_recommender.py:77 | the boolean mask keeps log order: filtering a concatenation concatenates the filtered parts |
| Text.Lower | content_recommender.py:54 | `str.lower` maps each character, keeping the length |
| Text.StripSpec | content_recommender.py:54 | `str.strip` keeps the infix of the input framed by whitespace only, with no whitespace at either end, and leaves an already-trimmed string alone |
| Text.LowerJoin | content_recommender.py:44-54 | lower-casing a join is joining the lower-cased parts |
| Text.SortIds | hybrid_recommender.py:133 | the sorted index is an ascending permutation |
| Collaborative.PairMax | collaborative_recommender.py:13-18 | `aggfunc="max"`: no value iff there is no matching row, else the largest score of one |
| Collaborative.BuildUserItemMatrixEntry | collaborative_recommender.py:12-20 | rows and columns are the logged users and items; each entry is the maximum score of that user's rows for that item, or 0 when there are none |
| Collaborative.ValueCounts | collaborative_recommender.py:36-37 | each distinct logged item once with its count, in descending count |
| Collaborative.RecommendItemsColdStart | collaborative_recommender.py:33-43 | cold start gives the empty series without a log, else up to top_k distinct logged items scored 1.0 in descending frequency, and a left-out item is no more frequent than every kept one |
| Collaborative.PopularLeftOut | collaborative_recommender.py:35-41 | a logged item left out means the list is full and every kept item is at least as frequent |
| Collaborative.RecommendItemsNormal | collaborative_recommender.py:45-50 | at most top_k, sorted descending, no positively rated item, each scored by the dot product, and no unseen item left out outscores a kept one |
| Collaborative.RecommendItemsMisaligned | collaborative_recommender.py:46-47 | a matrix column the similarity frame lacks makes `@` raise ValueError |
| Content.AttrNames | content_recommender.py:34-40 | exactly the non-metadata columns whose value is 1, in column order |
| Content.ProfileTextIsJoin | content_recommender.py:44-54 | `text` is the six fields joined by single spaces, lower-cased, then stripped |
| Content.ProfileTextClean | content_recommender.py:54 | `text` has no upper-case letter, no leading or trailing space, and is its own strip |
| Content.ProfileTextWithoutAttributes | content_recommender.py:44-54 | with an empty `attr_text`, the trailing separator is stripped and `text` is the lower-cased five fields |
| Content.ItemTable.constructor | content_recommender.py:28 | a table with the given columns and rows and no derived columns yet |
| Content.ItemTable.BuildItemProfiles | content_recommender.py:33-54 | rows unchanged; `attr_text` and `text` columns are added; every row's `attr_text` and `text` are the values above |
| Content.RecentAreLatest | content_recommender.py:77-78 | at most five recent pairs; no older interaction is later than a recent one; each recent pair is one of the user's interactions |
| Content.AffinityWeights | content_recommender.py:80-84 | with three recent items in the frame, the score is sim to the first + half of sim to the second + a third of sim to the third |
| Content.AffinityOffFrame | content_recommender.py:82 | when no recent item is a column of the frame, every row scores 0 |
| Content.AffinitySkipKeepsRank | content_recommender.py:80-84 | an off-frame recent item still takes up its rank: with the second of three off the frame, the score is sim to the first + a third of sim to the third |
| Content.StyleMatched | content_recommender.py:86 | the ids whose description contains the style preference, ignoring case |
| Content.AccumulateAffinity | content_recommender.py:80-84 | the loop leaves each label's score equal to its recency-weighted similarity sum |
| Content.ScoreKnownUser | content_recommender.py:74-92 | the step-by-step scoring equals the specification value for a user with a profile |
| Content.RecommendForUser | content_recommender.py:67-92 | the method equals `recommend_for_user` as a function of its inputs |
| Content.ForUserErrors | content_recommender.py:69-87 | ValueError iff a new user asks for more than the catalog holds; IndexError iff a user with interactions has no profile; KeyError iff a style-matched catalog id is missing from the frame |
| Content.ForUserColdStart | content_recommender.py:69-72 | a new user gets the drawn sample, each scored 1.0 |
| Content.ForUserRanking | content_recommender.py:77-92 | at most top_k, sorted descending, no item the user interacted with, each scored by the boosted recency-weighted sum, and no unseen item left out outscores a kept one |
| Content.SimilarItemsSpec | content_recommender.py:95-105 | ValueError iff the id is not in the frame; otherwise at most top_k rows sorted descending, never the query item, and no other row left out is more similar than a kept one |
| Fusion.NormalizeKeys | hybrid_recommender.py:14-15 | an empty series is returned unchanged; the index is kept |
| Fusion.NormalizeUnit | hybrid_recommender.py:16-18 | every normalised score lies in [0, 1] |
| Fusion.NormalizeMin | hybrid_recommender.py:16-18 | the minimum maps to 0 |
| Fusion.NormalizeMax | hybrid_recommender.py:16-18 | the maximum of a non-constant series maps to 1 |
| Fusion.NormalizeConstant | hybrid_recommender.py:16-18 | a constant series maps to all 0 |
| Fusion.NormalizeOrder | hybrid_recommender.py:16-18 | normalisation preserves the order of scores in both directions |
| Fusion.NormalizedRange | hybrid_recommender.py:16-18 | a normalised non-empty series has minimum 0 and maximum 0 or 1 |
| Fusion.NormalizeIdempotent | hybrid_recommender.py:12-18 | normalising twice is normalising once |
| Fusion.NormalizeTwo | hybrid_recommender.py:16-18 | two distinct scores normalise to 1 and 0 |
| Fusion.ComputeAlphaSpec | hybrid_recommender.py:20-27 | `min_alpha` for a user the matrix lacks; always within [min_alpha, max_alpha]; `max_alpha` from 50 positive entries on |
| Fusion.AlphaMonotone | hybrid_recommender.py:24-27 | alpha does not decrease as the positive-interaction count grows |
| Fusion.DecideWeightsSpec | hybrid_recommender.py:99-104 | an omitted alpha is the adaptive one; if beta or gamma is omitted both are replaced, the three sum to 1 and beta:gamma is 67:33; both supplied are kept |
| Fusion.GroupMaxSpec | hybrid_recommender.py:94-96 | `groupby().max()`: each id once, the ids of the input, each with the largest score the input gives it |
| Fusion.GroupMaxOfDistinct | hybrid_recommender.py:94-96 | on distinct ids the collapse changes nothing |
| Fusion.VisualCollapseIsNoOp | hybrid_recommender.py:87-96 | the visual dict already has distinct ids, so its `groupby().max()` is a no-op |
| Fusion.VisualDictLast | hybrid_recommender.py:88 | every entry of the visual dict is the last pair logged for its image |
| Fusion.VisualKeepsLast | hybrid_recommender.py:88 | the dict keeps the last duplicate score (0.1), where the max would keep 0.9 |
| Fusion.FuseSpec | hybrid_recommender.py:107-113 | the merged series has each id of the three channels once, scored alpha·collab + beta·content + gamma·visual, a missing channel score counting as 0 |
| Fusion.FusionScenario | hybrid_recommender.py:94-119 | two overlapping channels with weights 0.5/0.335/0.165 rank A (0.5), B (0.335), C (0.0) |
| Fusion.PadSpec | hybrid_recommender.py:129-137 | a full list is cut to top_k; a short list without an `item_id` column raises KeyError; otherwise distinct column ids not present, scored 0.01, are appended, at most top_k in all, and it stays short only when no column id is left out; an empty list gets the most frequent ids, in non-increasing frequency, with every left-out id no more frequent than every padded one; a non-empty list gets the smallest ids it lacks, ascending, with every left-out id no smaller than every padded one |
| Fusion.PadIdsMostFrequent | hybrid_recommender.py:131-133 | with nothing present, `difference` is not sorted: the padded ids are in non-increasing frequency, and an id left out is no more frequent than any padded one |
| Fusion.PadIdsSmallest | hybrid_recommender.py:131-133 | with something present, `difference` is sorted: an id left out is no smaller than any padded one |
| Fusion.PadDistinct | hybrid_recommender.py:129-137 | padding a list with distinct ids keeps the ids distinct |
| Fusion.PadPrefersFrequentId | hybrid_recommender.py:129-137 | an empty list padded to one from a log with "b.jpg" twice and "a.jpg" once gets "b.jpg", the most frequent |
| Fusion.PadPrefersSmallestId | hybrid_recommender.py:129-137 | a list holding only "c.jpg", padded to two from the same log, gets "a.jpg", the smallest id, not the most frequent "b.jpg" |
| Mmr.Lookups | hybrid_recommender.py:40 | the `.loc` lookups succeed iff nothing is selected or both labels are in the frame, else KeyError |
| Mmr.MaxOr | hybrid_recommender.py:40 | `max(..., default=0)`: the default for none, else the largest |
| Mmr.MmrScores | hybrid_recommender.py:37-42 | the pass succeeds iff its lookups do; one entry per candidate in order, carrying λ·relevance − (1−λ)·max similarity to the selected items |
| Mmr.FirstMaxIndex | hybrid_recommender.py:45 | `max(key=...)` picks a maximum with every earlier entry strictly smaller |
| Mmr.RemoveFirst | hybrid_recommender.py:47 | `list.remove` drops one occurrence, keeping the rest and their distinctness |
| Mmr.RemoveFirstSplit | hybrid_recommender.py:47 | `list.remove` cuts the list at the first occurrence of the item and drops exactly that element, keeping the rest in order |
| Mmr.PassScores | hybrid_recommender.py:37-42 | the inner `for` loop yields the MMR scores of the pass or its KeyError |
| Mmr.DiversifyMmr | hybrid_recommender.py:31-49 | the `while` loop returns exactly the specification value of `diversify_mmr` |
| Mmr.DiversifyShape | hybrid_recommender.py:36-49 | min(top_k, len) distinct entries, each an input entry with its original score |
| Mmr.SelectShape | hybrid_recommender.py:36-47 | the loop keeps the selected items in front, adds distinct candidates only, and stops at top_k or when the candidates run out |
| Mmr.DiversifyRaises | hybrid_recommender.py:36-49 | succeeds iff top_k ≤ 1, at most one candidate, or every id is a frame label; the failure is KeyError |
| Mmr.SelectStep | hybrid_recommender.py:39-47 | a pass selects the candidate with the largest MMR value, the earliest one on ties |
| Mmr.DiversifyFirstPick | hybrid_recommender.py:36-49 | with λ > 0 on a descending input, the first entry is the top item with its score |
| Mmr.SelectPrefix | hybrid_recommender.py:46 | the loop never drops a selected item |
| Mmr.DiversifyWithoutPenalty | hybrid_recommender.py:31-49 | with λ = 1 on a descending list with distinct ids, MMR is `head(top_k)` |
| Hybrid.Absorb | hybrid_recommender.py:67-82 | the named exception becomes an empty channel; anything else propagates unchanged |
| Hybrid.CollabChannelSpec | hybrid_recommender.py:67-73 | the collaborative channel raises only ValueError, for a misaligned frame outside the cold start |
| Hybrid.ContentChannelSpec | hybrid_recommender.py:76-82 | a new user gets the sample, or nothing when top_k*5 exceeds the catalog; a user with interactions and no profile raises IndexError; ValueError never escapes |
| Hybrid.RecommendPropagates | hybrid_recommender.py:67-82 | a collaborative failure ends the call with ValueError; a profile-less user with interactions ends it with IndexError |
| Hybrid.CallWeightsSpec | hybrid_recommender.py:98-104 | a supplied alpha is kept; an adaptive one lies in [0.2, 0.6] and is 0.2 for an unknown user; defaulted beta and gamma complete 1 in the ratio 67:33 |
| Hybrid.PreparedSpec | hybrid_recommender.py:94-96 | a prepared channel has each id of its input once, each scored in [0, 1] |
| Hybrid.RankedSpec | hybrid_recommender.py:107-119 | sorted descending with distinct ids; each entry is a catalog id some channel scored, with the weighted sum of prepared scores; every such id is present |
| Hybrid.HeadSpec | hybrid_recommender.py:122-126 | no diversification gives the first top_k, sorted; otherwise min(top_k, len) distinct ranked entries led by the top one, or KeyError exactly for a missing frame label |
| Hybrid.CombineSpec | hybrid_recommender.py:122-137 | at most top_k distinct ids; the head list unchanged in front; every later entry is a column id absent from the head, scored 0.01; a short head without the column raises KeyError |
| Hybrid.PadTail | hybrid_recommender.py:129-137 | the fallback keeps its input as the prefix and appends only column ids not present, scored 0.01 |
| Hybrid.HybridRecommend | hybrid_recommender.py:53-137 | the step-by-step pipeline returns exactly `Recommend` |
| Hybrid.CombineScores | hybrid_recommender.py:93-137 | the steps after the channels return exactly `Combine` |
| Hybrid.Fallback | hybrid_recommender.py:128-137 | the fallback step returns exactly `Fusion.Pad` |
| Explain.FirstRow | explain_recommendation.py:11 | `.iloc[0]`: none iff no row has the id, else the first such row |
| Explain.ExplainRecommendation | explain_recommendation.py:3-27 | not in catalog gives the general-preferences sentence before the user check; no profile gives the popular-trends sentence; the category reason is given iff a catalog row of an interacted item has the item's category, the brand reason iff one has its brand, category first, joined by " and "; with neither, the style-preference sentence |
| Explain.ReasonsFromRows | explain_recommendation.py:14-22 | membership in the collected brand and category columns is exactly the interaction-based condition |

## Left out
- TF-IDF vectorisation, `linear_kernel` and `cosine_similarity`: the similarity frames are inputs.
- The visual scorer (ResNet features, file walks, pickles): its `(id, score)` pairs are an input.
- `df_items.sample` is random: the drawn ids are the parameter `coldSample`. Only its ValueError, for more ids than the catalog holds, is modelled.
- CSV loaders, printing, the API and the demo: I/O, outside the core.
- Floating point: scores are exact reals, so rounding in `MinMaxScaler` and in the sums is not modelled.
- NaN: text fields are plain strings, and `fillna("")` and `na=False` have no counterpart.
- `str.contains(style_pref)` treats the preference as a regular expression. The model uses a plain, case-insensitive substring test with ASCII case folding.
- pandas index alignment order: the model does not reproduce the order of the `groupby` index or of the `concat` union. No claim depends on it, because the series is re-sorted.
- Tie order of `sort_values`: the default sort is not stable, so no claim is made about the order of equal scores, except MMR's first-maximum rule.
- Mmr.DiversifyMmr: `item_scores.loc[selected]` is read through `Get`, the first entry of an id. Its input always has distinct ids, so duplicate-label expansion is not modelled.
- Content.ItemTable.BuildItemProfiles: the TF-IDF matrix and similarity frame it returns are not modelled. Only the two string columns it writes are.
- Text.Lower: ASCII only. Python's `str.lower` also maps non-ASCII letters, and for a few of them it changes the string's length; the model folds only `A`-`Z` and keeps the length.
- Text.StripSpec: ASCII only. Python's `str.strip` also removes Unicode whitespace such as U+0085, U+00A0 and U+3000; the model strips only ASCII whitespace.
- Negative `top_k`: the API passes any integer, and the model takes `topK: nat`. With a negative value, `head(-n)` drops the last n entries, `df_items.sample(-n)` raises ValueError, and the MMR loop never runs. None of this is modelled.
- `df_users=None`, as the API passes it: `recommend_for_user` then subscripts `None` for a user with interactions, a TypeError that no `except` catches. The model always takes a profile table, so it has no TypeError.
- Collaborative.UserItemMatrix and Records.Frame carry no well-formedness predicate. A pivot table and a similarity frame built by pandas have distinct users, items and labels. `BuildUserItemMatrix` produces distinct ones, but a matrix or frame given to the hybrid with repeated labels is not excluded, and its dot products and row sums would count a repeated label twice.
