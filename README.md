# Skill exchange: learning requests, mentor matching and the learner pages

This project models the core of a skill-exchange site. Users list skills they can teach, with a level, and skills they want to learn. A matcher recommends mentors to a learner. The learner sends learning requests, which the mentor accepts or rejects; an accepted request opens a conversation between the two. On the frontend, the skills page edits the two skill lists, and the dashboard derives request statuses, connections and counts from the request lists.

The model has six modules, one file each:

| file | module | models |
|---|---|---|
| `text.dfy` | `Text` | Python `str.strip()`/`str.lower()`, JavaScript `trim()`, and the code-point order `sorted()` uses |
| `models.dfy` | `Models` | the tables of `backend/api/models.py`: choices, defaults, uniqueness, orderings |
| `matcher.dfy` | `Matcher` | `backend/ml/matcher.py`: the vocabulary, the have/want vectors, and candidate selection, sorting and truncation |
| `views.dfy` | `Views` | `backend/api/views.py`: the request table and conversation table as fields of a `LearningBoard` class, one method per handler, and the recommendation rows |
| `skills.dfy` | `SkillsPage` | `frontend/app/skills/page.js`: a `SkillsEditor` class for the component state, plus pure functions for lookup, filters and the save body |
| `dashboard.dfy` | `Dashboard` | `frontend/app/dashboard/page.js`: request status and button, connections through an insertion-ordered map, counts, skill rendering, slices, search |

Boundaries of the model:

- The cosine-similarity score is a function parameter (`Matcher.Scorer`) and stays uninterpreted.
- The database is in-memory sequences. `created_at` is a counter that grows with every insert.
- The authenticated user is a parameter of each handler.

## Model

| member | source | states |
|---|---|---|
| Text.StripStartSpec | backend/ml/matcher.py:27 | stripping the front leaves a suffix that starts with no white space, and everything removed was white space |
| Text.StripEndSpec | backend/ml/matcher.py:27 | stripping the end leaves a prefix that ends with no white space, and everything removed was white space |
| Text.StripSpec | backend/ml/matcher.py:27 | `strip()` yields a contiguous slice `s[a..b]` of the input whose first and last characters are not white space, and everything dropped before `a` and after `b` is white space |
| Text.StripEmptyIffAllWhitespace | frontend/app/dashboard/page.js:130 | a string strips to empty exactly when every character is white space |
| Text.StripUnchanged | frontend/app/skills/page.js:60 | a string with no white space at either end strips to itself |
| Text.StripIdempotent | backend/ml/matcher.py:48 | stripping twice is stripping once |
| Text.LowerSpec | backend/ml/matcher.py:27 | `lower()` keeps the length and maps each character on its own |
| Text.LowerIdempotent | backend/ml/matcher.py:48 | lower-casing twice is lower-casing once |
| Text.LexLessIrreflexive | backend/ml/matcher.py:34 | no string sorts before itself |
| Text.LexLessTransitive | backend/ml/matcher.py:34 | the string order is transitive |
| Text.LexLessTotal | backend/ml/matcher.py:34 | of two different strings, one sorts first |
| Text.LexLessAsymmetric | backend/ml/matcher.py:34 | two strings never sort before each other |
| Text.LeastExists | backend/ml/matcher.py:34 | every non-empty set of strings has a least element |
| Text.LeastUnique | backend/ml/matcher.py:34 | the least element is unique |
| Text.SortedStrings | backend/ml/matcher.py:34 | `sorted(set)` is strictly increasing, holds exactly the set's members and has the set's size |
| Text.SortedDistinct | backend/ml/matcher.py:34 | a strictly sorted list has no repeats |
| Models.SkillNamed | backend/api/models.py:8-9 | lookup by name finds a skill exactly when one has that name; under the unique-name constraint it is the only one |
| Models.ParseLevel | backend/api/models.py:16-20 | exactly the three level choices are accepted, and each reads back to its own name |
| Models.LevelRoundTrip | backend/api/models.py:16-20 | every level's stored name parses back to that level |
| Models.ParseStatus | backend/api/models.py:50-54 | exactly `pending`, `accepted` and `rejected` are accepted, each reading back to its own name |
| Models.StatusRoundTrip | backend/api/models.py:50-54 | every status's stored name parses back to that status |
| Models.MessagesOf | backend/api/models.py:103-108 | a conversation's messages are exactly the message rows with its id |
| Models.MessagesOfOldestFirst | backend/api/models.py:117-118 | a conversation's messages come out oldest first |
| Matcher.LevelWeight | backend/ml/matcher.py:7-11 | the weight is 1 to 3: 2 exactly for `intermediate`, 3 exactly for `advanced`, 1 for `beginner`, a missing level or any other value |
| Matcher.NormalizeIdempotent | backend/ml/matcher.py:27 | `strip().lower()` applied twice is applied once |
| Matcher.HaveNamesSpec | backend/ml/matcher.py:26-27 | a user's "have" names are exactly the normalised names of the user's have entries |
| Matcher.WantNamesSpec | backend/ml/matcher.py:30-31 | a user's "want" names are exactly the normalised wanted names |
| Matcher.SkillNamesSpec | backend/ml/matcher.py:22-31 | the collected set holds a name exactly when some user has or wants it |
| Matcher.IndexMap | backend/ml/matcher.py:34 | `{k: i for i, k in enumerate(names)}` has exactly the listed keys, each mapped to a position that holds it |
| Matcher.IndexMapOfDistinct | backend/ml/matcher.py:34 | for a list without repeats, every element maps to its own position and the map has the list's size |
| Matcher.NumberingKeys | backend/ml/matcher.py:33-34 | numbering a set in sorted order gives exactly the set as keys, one per member |
| Matcher.NumberingFits | backend/ml/matcher.py:33-34 | every index is below the vocabulary size |
| Matcher.NumberingOnto | backend/ml/matcher.py:33-34 | the indices used are exactly 0 to n-1 |
| Matcher.NumberingOrdered | backend/ml/matcher.py:33-34 | one key sorts before another exactly when its index is smaller |
| Matcher.VocabKeys | backend/ml/matcher.py:17-34 | the vocabulary keys are exactly the normalised have and want names of all users |
| Matcher.VocabIndexesFit | backend/ml/matcher.py:17-34 | the vocabulary indices address a vector of its own size |
| Matcher.VocabIsSortedEnumeration | backend/ml/matcher.py:17-34 | the vocabulary's keys are all the names and its indices are exactly 0..n-1, a bijection given in sorted key order |
| Matcher.UserNamesInVocab | backend/ml/matcher.py:17-34 | every user's normalised have and want names are in the vocabulary |
| Matcher.BuildSkillVocab | backend/ml/matcher.py:17-34 | the nested loops over users and their skills return the vocabulary of all users |
| Matcher.AddUserSkills | backend/ml/matcher.py:26-31 | one pass of the outer loop adds exactly that user's normalised have and want names |
| Matcher.HaveWeightAt | backend/ml/matcher.py:47-55 | an entry of the have vector is at most 3, and non-zero exactly when some have entry lands on that index |
| Matcher.WantAt | backend/ml/matcher.py:67-70 | an entry of the want vector is 0 or 1, and 1 exactly when some wanted name lands on that index |
| Matcher.HaveVector | backend/ml/matcher.py:45 | the have vector has one entry per vocabulary key |
| Matcher.WantVector | backend/ml/matcher.py:65 | the want vector has one entry per vocabulary key |
| Matcher.LastEntryWins | backend/ml/matcher.py:53-55 | when several entries land on one index, the weight is that of the last of them |
| Matcher.HaveVectorNonzero | backend/ml/matcher.py:47-55 | `have_vec.any()` holds exactly when some have name is in the vocabulary |
| Matcher.WantVectorNonzero | backend/ml/matcher.py:67-70 | `vec.any()` holds exactly when some wanted name is in the vocabulary |
| Matcher.HaveVectorNonzeroIff | backend/ml/matcher.py:116-119 | against the users' own vocabulary, a user has a non-zero have vector exactly when the user lists something to teach |
| Matcher.WantVectorNonzeroIff | backend/ml/matcher.py:103-106 | against the users' own vocabulary, the learner's want vector is non-zero exactly when the learner wants something |
| Matcher.HaveWeightIgnoresSpelling | backend/ml/matcher.py:48 | have lists whose names agree after `strip().lower()` give the same vector, so case and surrounding blanks do not matter |
| Matcher.HaveWeightStep | backend/ml/matcher.py:47-55 | one more loop step sets only the index its entry lands on |
| Matcher.WantAtStep | backend/ml/matcher.py:67-70 | one more loop step sets only the index its wanted name lands on |
| Matcher.BuildHaveVector | backend/ml/matcher.py:40-57 | the array written in place equals the have vector |
| Matcher.BuildWantVector | backend/ml/matcher.py:60-72 | the array written in place equals the want vector |
| Matcher.FirstWithId | backend/ml/matcher.py:93-97 | the search finds the first user with the id, or reports that none has it |
| Matcher.Mentors | backend/ml/matcher.py:112-122 | the kept mentors are no more than the users |
| Matcher.MentorsSpec | backend/ml/matcher.py:112-122 | a user is kept as mentor exactly when it is not the learner and its have vector is non-zero |
| Matcher.Scored | backend/ml/matcher.py:132-140 | filtering by score keeps at most the mentors |
| Matcher.ScoredSpec | backend/ml/matcher.py:132-140 | a match is kept exactly when it pairs a mentor with that mentor's score and the score is at least `min_score` |
| Matcher.InsertByScore | backend/ml/matcher.py:143 | one insertion step of the sort adds exactly the new match |
| Matcher.InsertKeepsOrder | backend/ml/matcher.py:143 | inserting into a non-increasing list keeps it non-increasing |
| Matcher.SortByScoreDesc | backend/ml/matcher.py:143 | the sort is a permutation of its input |
| Matcher.SortIsNonIncreasing | backend/ml/matcher.py:143 | sorted scores never increase |
| Matcher.WithScore | backend/ml/matcher.py:143 | the matches with one score are the input's matches with that score |
| Matcher.InsertStable | backend/ml/matcher.py:143 | inserting keeps the input order among equal scores |
| Matcher.SortIsStable | backend/ml/matcher.py:143 | the sort keeps the input order among equal scores, as Python's stable sort does with `reverse=True` |
| Matcher.Min | backend/ml/matcher.py:144 | the result is at most both arguments and equal to one of them, the length bound of a non-negative slice |
| Matcher.Truncate | backend/ml/matcher.py:144 | `results[:top_k]` is a prefix of length `min(top_k, n)`, and a negative `top_k` drops that many from the end |
| Matcher.LocateLearner | backend/ml/matcher.py:93-97 | the loop with `break` finds the first user with the learner's id |
| Matcher.CollectMentors | backend/ml/matcher.py:108-122 | the loop with `continue` keeps exactly the mentors, paired with their have vectors |
| Matcher.KeepScored | backend/ml/matcher.py:132-140 | the result loop keeps exactly the mentors whose score reaches `min_score` |
| Matcher.BestMentorsNoLearner | backend/ml/matcher.py:86-106 | each early return (no users, learner missing, learner wanting nothing) gives the empty result |
| Matcher.RankMentors | backend/ml/matcher.py:124-144 | scoring, filtering, sorting and truncating the kept mentors gives the specified ranking |
| Matcher.BestMentorsFromMentors | backend/ml/matcher.py:108-144 | past the early returns, the result is the ranking of the kept mentors |
| Matcher.FindBestMentors | backend/ml/matcher.py:78-144 | `find_best_mentors` returns exactly `BestMentors`, the specification below |
| Matcher.CandidatesSpec | backend/ml/matcher.py:99-140 | a match is a candidate exactly when the learner exists and wants something, the match is another user with something to teach, and its score reaches `min_score` |
| Matcher.BestIsSortedPrefix | backend/ml/matcher.py:143-144 | the result is a prefix of the sorted candidates |
| Matcher.BestMentorsMembers | backend/ml/matcher.py:99-140 | every returned match is a user other than the learner, with a non-empty have list and its own score of at least `min_score` |
| Matcher.BestMentorsEmpty | backend/ml/matcher.py:86-125 | the result is empty when the list is empty, the learner is absent, the learner wants nothing, or nobody else can teach |
| Matcher.BestMentorsOrdered | backend/ml/matcher.py:143-144 | scores never increase along the result |
| Matcher.TruncateNonIncreasing | backend/ml/matcher.py:144 | a prefix of a non-increasing list is non-increasing |
| Matcher.BestMentorsBound | backend/ml/matcher.py:144 | at most `top_k` matches (for `top_k >= 0`), and never more than there are users |
| Matcher.BestMentorsComplete | backend/ml/matcher.py:132-144 | with room for all, the result holds every candidate exactly once |
| Matcher.BestMentorsAreBest | backend/ml/matcher.py:143-144 | a candidate left out scores no higher than any returned match |
| Matcher.TruncateKeepsBest | backend/ml/matcher.py:144 | cutting a non-increasing list keeps the highest scores |
| Matcher.WithScorePrefix | backend/ml/matcher.py:144 | a prefix keeps a prefix of each score's matches |
| Matcher.BestMentorsTiesKeepOrder | backend/ml/matcher.py:143-144 | among matches with equal scores, the result is a prefix of the candidates in user-list order |
| Views.CreateStatusCode | backend/api/views.py:120-162 | create answers 201 exactly on success, 404 exactly for an unknown target, and 400 for the other refusals |
| Views.ActionStatusCode | backend/api/views.py:206-249 | an action answers 200 on accept or reject, 404 when not found, and 400 when already processed or invalid |
| Views.FindRequest | backend/api/views.py:209-215 | `get(pk=…, to_user=caller)` finds a request with that id addressed to the caller, or reports that none exists |
| Views.OrderedPair | backend/api/views.py:234 | the pair sorted by id is the two users in non-decreasing order |
| Views.OrderedPairSymmetric | backend/api/views.py:234 | the conversation pair does not depend on who sent the request |
| Views.FindConversation | backend/api/views.py:235-237 | the lookup finds a conversation of the pair, or reports that there is none |
| Views.GetOrCreate | backend/api/views.py:235-237 | get-or-create inserts a row exactly when the pair has none, and leaves the table alone otherwise |
| Views.GetOrCreateFinds | backend/api/views.py:229-244 | afterwards the pair has exactly the returned conversation, and the table keeps its unique ordered pairs |
| Views.GetOrCreateIdempotent | backend/api/views.py:229-244 | a second accept for the same pair creates no second conversation |
| Views.PendingIsLatestAtMostOne | backend/api/views.py:144-153 | the board's invariant gives at most one pending request per (from, to) pair |
| Views.LatestStatusPending | backend/api/views.py:144-153 | the latest request of a pair is pending exactly when the pair has a pending request |
| Views.SettleKeepsInvariants | backend/api/views.py:229-249 | accepting or rejecting a pending request keeps the table well formed and its pending requests latest |
| Views.FindRequestUnique | backend/api/views.py:210 | with unique ids, the request found is the only one with that id |
| Views.ListingMembers | backend/api/views.py:173-194 | the incoming listing holds exactly the requests to the caller, and the outgoing listing exactly those from the caller |
| Views.ListingNewestFirst | backend/api/views.py:174-176 | listings come out newest first |
| Views.LearningBoard.constructor | backend/api/models.py:49-97 | the empty tables satisfy the board invariant |
| Views.LearningBoard.CreateRequest | backend/api/views.py:120-162 | the checks run in the source's order, each refusal happens exactly under its condition and changes nothing, a success appends one pending request from the caller to the target, and the board invariant is kept |
| Views.LearningBoard.ApplyAction | backend/api/views.py:206-249 | only the recipient finds the request (404 otherwise), a non-pending request is refused before the action name is checked, an unknown action is refused, `accept` sets `accepted` and gets or creates the pair's conversation, `reject` sets `rejected` and creates nothing; the board invariant is kept |
| Views.LearningBoard.Accept | backend/api/views.py:229-244 | the request becomes accepted, and the id-ordered pair gets its conversation unless it already has one |
| Views.LearningBoard.Reject | backend/api/views.py:246-249 | the request becomes rejected and nothing else changes |
| Views.ConnectedStaysConnected | backend/api/views.py:235-237 | adding conversations keeps every pair that had one |
| Views.Rows | backend/api/views.py:91-104 | one recommendation row per match |
| Views.FormatMatches | backend/api/views.py:91-104 | the formatting loop writes one row per match, in order |
| Views.Recommendations | backend/api/views.py:79-106 | the recommendations are the rows of the best five mentors with `min_score` 0 |
| Views.RecommendationsShape | backend/api/views.py:79-106 | at most five rows; each is another user with something to teach and a score of at least 0; scores never increase |
| SkillsPage.FindSkillName | frontend/app/skills/page.js:52-55 | the name of the first catalog skill with the id, or "Unknown" when the catalog has none |
| SkillsPage.DecimalString | frontend/app/skills/page.js:60 | an option value written from an id is a non-empty run of digits |
| SkillsPage.DecimalDigitsValue | frontend/app/skills/page.js:60 | the digits of an id read back as the id |
| SkillsPage.NumberOfDecimal | frontend/app/skills/page.js:60 | `Number` of an id's option value is that id |
| SkillsPage.NumberOfBlankIsZero | frontend/app/skills/page.js:59-61 | `Number` of a blank selection is 0, so the add does nothing |
| SkillsPage.HaveIds | frontend/app/skills/page.js:64 | an id is in the have list's ids exactly when `haveList.some(h => h.skill_id === id)` holds, so the duplicate check and the id list agree |
| SkillsPage.WantIds | frontend/app/skills/page.js:90 | an id is in the want list's ids exactly when `wantList.some(w => w.skill_id === id)` holds |
| SkillsPage.WithoutHave | frontend/app/skills/page.js:109-111 | the filter keeps exactly the entries with another id |
| SkillsPage.WithoutWant | frontend/app/skills/page.js:113-115 | the filter keeps exactly the entries with another id |
| SkillsPage.WithoutHaveKeepsOrder | frontend/app/skills/page.js:109-111 | removal works piecewise over a concatenation, so the remaining entries keep their order |
| SkillsPage.WithoutWantKeepsOrder | frontend/app/skills/page.js:113-115 | removal works piecewise over a concatenation, so the remaining entries keep their order |
| SkillsPage.WithoutHaveNoDuplicates | frontend/app/skills/page.js:109-111 | removing from a list without duplicate ids leaves none |
| SkillsPage.WithoutWantNoDuplicates | frontend/app/skills/page.js:113-115 | removing from a list without duplicate ids leaves none |
| SkillsPage.WithLevel | frontend/app/skills/page.js:117-125 | the map keeps length, order, ids and names, and changes the level of the matching entries only |
| SkillsPage.WithLevelKeepsIds | frontend/app/skills/page.js:117-125 | changing a level keeps the list of ids |
| SkillsPage.Available | frontend/app/skills/page.js:157-162 | the catalog filter keeps exactly the skills whose id is not taken |
| SkillsPage.AvailableKeepsOrder | frontend/app/skills/page.js:157-162 | the filter works piecewise, so available skills keep catalog order |
| SkillsPage.AvailableForHaveDisjoint | frontend/app/skills/page.js:157-159 | the have dropdown shares no id with the have list and offers every catalog skill not in it |
| SkillsPage.AvailableForWantDisjoint | frontend/app/skills/page.js:160-162 | the want dropdown shares no id with the want list and offers every catalog skill not in it |
| SkillsPage.LevelOrDefault | frontend/app/skills/page.js:137 | `level || "intermediate"` keeps a set level and turns an empty one into `intermediate` |
| SkillsPage.SaveBodyShape | frontend/app/skills/page.js:134-142 | the body has one `{skill_id, level}` per have entry and one `{skill_id}` per want entry, with the same length and order; each level is the entry's own when set and `intermediate` when empty |
| SkillsPage.SkillsEditor.constructor | frontend/app/skills/page.js:14-25 | initial state: the lists given, empty selections, level `intermediate`, no message |
| SkillsPage.SkillsEditor.AddHave | frontend/app/skills/page.js:58-83 | nothing happens for an empty, zero or NaN selection; a duplicate id leaves the list and sets the message; otherwise one entry is appended with the catalog name (or "Unknown") and the selected level (or `intermediate`), and the selection and message are reset; ids stay distinct |
| SkillsPage.SkillsEditor.AddWant | frontend/app/skills/page.js:85-107 | the same rule for the want list, with its own message; ids stay distinct |
| SkillsPage.SkillsEditor.RemoveHave | frontend/app/skills/page.js:109-111 | the have list loses the entries with the id and nothing else changes |
| SkillsPage.SkillsEditor.RemoveWant | frontend/app/skills/page.js:113-115 | the want list loses the entries with the id and nothing else changes |
| SkillsPage.SkillsEditor.ChangeHaveLevel | frontend/app/skills/page.js:117-125 | only the level of the matching entry changes; the ids and the rest of the state stay |
| Dashboard.RequestStatusFor | frontend/app/dashboard/page.js:51-54 | nothing when no outgoing row goes to the user, otherwise the status of the first row that does |
| Dashboard.ButtonFor | frontend/app/dashboard/page.js:378-386 | disabled exactly for `pending` or `accepted`; the label is "Requested", "Connected" or "Request to learn" in those cases; disabled exactly when the label is not "Request to learn" |
| Dashboard.StatusForListing | frontend/app/dashboard/page.js:51-54 | read off the newest-first outgoing listing, the status shown is that of the latest request to that user |
| Dashboard.ButtonShowsPendingRequest | frontend/app/dashboard/page.js:532-539 | on a board that keeps its invariant, the button reads "Requested" exactly when the backend would refuse a new request to that user as a duplicate |
| Dashboard.KeyIndex | frontend/app/dashboard/page.js:97-117 | the position of a key when it is present, and nothing exactly when it is absent |
| Dashboard.MapSet | frontend/app/dashboard/page.js:102-114 | `map.set` keeps a present key in its place, appends a new key, and keeps keys distinct |
| Dashboard.MapSetLookup | frontend/app/dashboard/page.js:102-114 | after `set`, the key reads the new value and every other key reads what it did before |
| Dashboard.SetAllDistinct | frontend/app/dashboard/page.js:97-117 | a run of `set` calls keeps keys distinct |
| Dashboard.SetAllAppend | frontend/app/dashboard/page.js:99-115 | the two `forEach` passes act as one run over both entry lists |
| Dashboard.SetAllLastValueWins | frontend/app/dashboard/page.js:97-117 | a repeated key holds the value of its last `set` |
| Dashboard.FirstOccurrences | frontend/app/dashboard/page.js:97-117 | the keys set, each once, in order of first occurrence |
| Dashboard.SetAllKeyOrder | frontend/app/dashboard/page.js:97-117 | a repeated key keeps the position of its first `set` |
| Dashboard.SetAllSize | frontend/app/dashboard/page.js:97-117 | each `set` adds at most one entry |
| Dashboard.AcceptedOnly | frontend/app/dashboard/page.js:100 | the filter keeps exactly the accepted rows |
| Dashboard.BuildConnections | frontend/app/dashboard/page.js:96-118 | the memo's two loops of `map.set` yield exactly the specified connections |
| Dashboard.ConnectionMapIsOneRun | frontend/app/dashboard/page.js:96-118 | the memo's map is one run of `set` over the incoming entries followed by the outgoing ones |
| Dashboard.InEntriesKeys | frontend/app/dashboard/page.js:99-106 | incoming entries set exactly the keys `in-<u>` of accepted senders |
| Dashboard.OutEntriesKeys | frontend/app/dashboard/page.js:108-115 | outgoing entries set exactly the keys `out-<u>` of accepted recipients |
| Dashboard.ConnectionKeyOrder | frontend/app/dashboard/page.js:96-118 | the connections come in order of each key's first `set`, each key once |
| Dashboard.ConnectionKeys | frontend/app/dashboard/page.js:96-118 | the keys are `in-<u>` for every sender of an accepted incoming request and `out-<u>` for every recipient of an accepted outgoing one, and nothing else |
| Dashboard.SetAllIdsMatchKeys | frontend/app/dashboard/page.js:102-114 | every entry names the user of its key |
| Dashboard.ConnectionIds | frontend/app/dashboard/page.js:96-118 | every connection names the user of its key |
| Dashboard.TwoKeysTwoValues | frontend/app/dashboard/page.js:117 | a map holding both `in-<u>` and `out-<u>` lists u twice |
| Dashboard.ConnectedBothWaysAppearsTwice | frontend/app/dashboard/page.js:96-118 | a user connected in both directions appears twice among the connections |
| Dashboard.ConnectionTakesLastValue | frontend/app/dashboard/page.js:96-118 | each connection carries the user name of the last accepted request that set its key |
| Dashboard.StatsConnectionsBound | frontend/app/dashboard/page.js:121-126 | `matches`, `incoming`, `outgoing` and `connections` are the lengths of their lists, and connections are at most the accepted incoming plus accepted outgoing requests |
| Dashboard.Join | frontend/app/dashboard/page.js:86-90 | `join` of nothing is empty, and of one part is that part |
| Dashboard.JoinLength | frontend/app/dashboard/page.js:86-90 | the joined text holds every part and one separator between each two |
| Dashboard.Label | frontend/app/dashboard/page.js:89 | the label is never empty: an object shows its `name` if set, else its `skill`, else its `title`, else "Skill"; a plain string (which has none of these fields) gives "Skill" |
| Dashboard.JoinTexts | frontend/app/dashboard/page.js:86 | how `join` writes each element, one per element |
| Dashboard.Labels | frontend/app/dashboard/page.js:88-89 | one non-empty label per element |
| Dashboard.RenderSkillsCases | frontend/app/dashboard/page.js:84-93 | "–" for a missing or empty list or one that starts with `null`; a list of objects throws exactly when it holds a `null`, and otherwise shows at least one character per element plus the separators |
| Dashboard.RenderSkillRecords | frontend/app/dashboard/page.js:87-90 | a list that starts with an object and holds no `null` shows the labels of its elements joined by ", " |
| Dashboard.RenderSkillRecordNames | frontend/app/dashboard/page.js:87-90 | objects that all carry a `name` show exactly those names joined by ", " |
| Dashboard.LabelsLength | frontend/app/dashboard/page.js:89 | non-empty labels add at least one character each |
| Dashboard.RenderSkillNames | frontend/app/dashboard/page.js:86 | a non-empty list of names shows them joined by ", " |
| Dashboard.Overview | frontend/app/dashboard/page.js:350-352 | `slice(0, 3)` is the first min(3, n) elements |
| Dashboard.StartSearch | frontend/app/dashboard/page.js:129-139 | any search that goes to the backend sends the query as typed |
| Dashboard.StartSearchClears | frontend/app/dashboard/page.js:129-133 | the results are cleared without a backend call exactly when the query is empty or all white space |

## Left out

- The cosine similarity (backend/ml/matcher.py:127-130) is left out, because it is numpy and scikit-learn floating point. The score is an uninterpreted parameter `Scorer` applied to the want and have vectors, so the model states nothing about score values beyond what the selection does with them.
- Matcher.HaveVector, Matcher.WantVector: the vectors are integer sequences, not numpy float arrays, because the weights 0 to 3 are exact in floating point.
- Text.LowerSpec: `lower()` is modelled on ASCII letters only, because Unicode case mapping tables are out of scope.
- Matcher.LevelWeight: a level that is present but not a string is treated like an unknown string (weight 1), because the users list the matcher receives holds level strings.
- Python's `sorted()` on strings compares code points, and `Text.LexLess` is that order on Unicode scalar values. A Python `str` may also hold lone surrogates (U+D800 to U+DFFF), which a Dafny `char` cannot, so names containing them are not modelled.
- The database layer is not modelled: ORM queries, `prefetch_related`, `build_users_list_for_ml` in backend/api/services.py, transactions and concurrent requests. The tables are in-memory sequences, and each handler runs to completion on its own.
- Authentication: the caller is a parameter, and `caller in users` is a precondition of the handlers because `IsAuthenticated` guarantees it.
- Views.LearningBoard.CreateRequest: `to_user_id` is modelled as an optional integer. A non-numeric string would make the id lookup raise rather than answer 404, and that case is not modelled.
- Views.LearningBoard.CreateRequest: the 255-character limit on the message column (backend/api/models.py:66) is enforced by the database, not by the handler, so the model stores any message and does not model the database error an over-long message would cause.
- `created_at` is a counter, not wall-clock time, so two requests never share a timestamp.
- The chat and call WebSocket consumers, routing, ASGI and URL configuration are left out, because they are asynchronous I/O plumbing.
- The HTTP helpers, token storage, navigation, JSX rendering and the search page's debounce are left out, because they are I/O and presentation.
- `handleSearch`'s backend call and its error handling are left out, because they are network I/O. Only the empty-query branch (`Dashboard.StartSearch`) is modelled.
- SkillsPage.NumberOfDecimal: `Number(...)` is modelled for trimmed, optionally signed decimal digit strings. Other JavaScript number syntax (fractions, exponents, hex, `Infinity`) reads as NaN in the model, because the dropdown values are integer ids.
- Dashboard.RenderSkillsCases: skill elements are strings, objects with string fields, or `null`. Numbers, booleans and nested arrays in a skill list are not modelled, and an absent object field is the empty string.
- Dashboard.RequestStatusFor: statuses are the three backend choices, because the backend only ever serialises those.
- The dashboard and skills pages' loading, saving and error states are left out, because they only track fetch progress.
