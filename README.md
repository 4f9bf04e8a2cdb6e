# Recruitment board: listing filters, recommendations and record rules

This project is a Dafny model of the categorical-data core of a Django
recruitment board. Clubs, external activities and bootcamps publish
recruitment posts on the board, and visitors filter the posts. The model
covers the following:

- **Post listing** (`posts/views.py`):
  - the listing holds the published posts, newest first;
  - the AJAX filter narrows it by post type and by four comma-packed
    parameter groups: recruitment field, quarter, eligibility and
    development level;
  - the quarter group expands each quarter name to its three months, which
    are then de-duplicated;
  - within a group the codes are OR-ed, each tested as a whole
    comma-delimited token (the regex `(^|,)v(,|$)`);
  - the groups are AND-ed together.
- **Recommendations** (`main/views.py`):
  - the front page combines `published ∧ month ∧ (interest ∨ affiliation ∨
    level) ∧ activity_type` as Django `Q` objects;
  - these lookups are case-insensitive *substring* tests;
  - the recommendation page filters on the interest code alone.
- **The admin post form** (`posts/forms.py`):
  - each ticked code list is stored as one `","`-joined string;
  - on reopening a saved post, the string is split on `","` and each piece
    stripped.
- **Record rules**:
  - the month-list validator and the month display helpers;
  - the CREATE/UPDATE target-post rule of admin requests, their choice
    lists and default status, and their text form;
  - the two bulk status actions of the admin site;
  - the guards of `create_user` and `create_superuser`, the permission
    shortcuts and the profile defaults.

Modules:

- `Text`: Python `split`, `join`, `strip`, ASCII `lower`, substring search and
  the token regex.
- `Seqs`: filtering, subsequences and `dict.fromkeys` de-duplication.
- `Query`: `Q` objects and `filter`. An empty `Q()` is the identity of `|` and
  `&`, and `filter(Q())` keeps every row.
- `PostModels`: the `Post` record, the newest-first ordering, the month
  validator and the display helpers.
- `PostViews`, `MainViews`, `PostForms`, `AdminRequests`, `AdminActions`,
  `Users`: one module per core file.

The database is a sequence of `Post` values. A query string is a
`map<string, string>`. The current month, the e-mail normaliser and every
key are parameters.

The imperative parts are methods proved against functions that specify them:

- `posts_ajax_list` with its accumulating loops is proved against
  `AjaxResult`;
- the step-by-step query building of `main` is proved against
  `Recommends`;
- the form constructor's loop over the five fields is proved against
  `AfterInit`;
- the bulk updates are methods of `RequestTable`, proved against
  `SetStatus`.

The quarter table (`posts/views.py:35`) puts March in 1분기, so
`quarter=1분기` selects a post open in `"3월,4월"`; see
`PostViews.QuarterScenario`.

## Model

| member | source | states |
|---|---|---|
| `PostViews.AjaxList` | posts/views.py:10-72 | The posts the AJAX view returns are exactly `AjaxResult`. That is the published, newest-first base listing, filtered by the type, field, quarter, eligibility and level groups in turn. |
| `PostViews.FilterByCodes` | posts/views.py:22-29 | The OR of per-code regex lookups, accumulated from an empty `Q()`, keeps exactly the posts for which some code is a whole token of the column. With no codes nothing is filtered. |
| `PostViews.FilterByQuarters` | posts/views.py:31-48 | Extending the month list quarter by quarter, de-duplicating it and OR-ing the month lookups keeps exactly the posts having some month of the named quarters as a token. When no quarter name is known the month list is empty and nothing is filtered, as `if months:` skips the filter. |
| `PostViews.AjaxResultShape` | posts/views.py:11-66 | The result is newest first and a subsequence of the published listing. A post is in it iff it is in the table, published and passes every active group. |
| `PostViews.PublishedNewestFirstContents` | posts/views.py:76-78 | `posts_list` holds exactly the published posts, newest first. This lemma carries `PostViews.PublishedNewestFirst`. |
| `PostViews.TypeListIsAjaxByType` | posts/views.py:81-91 | For every type code other than "" and "ALL", `posts_type_list` equals the AJAX listing with only a `type` parameter: the published posts whose type equals the lower-cased code. |
| `PostViews.TypeListContents` | posts/views.py:81-87 | For every type code, `posts_type_list` is newest first and holds exactly the published posts whose type equals the lower-cased code. For "ALL" that means posts typed "all". This lemma carries `PostViews.TypeList`. |
| `PostViews.AllTypeListsDiffer` | posts/views.py:13-15 | With the code "ALL", every published post of a type other than "all" is in the AJAX listing but not on the type page: the AJAX view drops the type filter for "ALL", while `posts_type_list` (posts/views.py:86) looks for the type "all". |
| `PostViews.Get` | posts/views.py:13-20 | `request.GET.get` yields a value exactly for the keys present, and that value is the one stored under the key. |
| `PostViews.Codes` | posts/views.py:24 | Splitting a parameter and dropping empty pieces yields non-empty, comma-free codes. |
| `PostViews.InactiveParamNoConstraint` | posts/views.py:23-25 | A parameter that is absent, `""`, `"ALL"` or only commas gives no codes, so its group keeps every post. |
| `PostViews.SingleCode` | posts/views.py:23-24 | A parameter with one comma-free code other than `"ALL"` contributes exactly that code. |
| `PostViews.WholeTokenOnly` | posts/views.py:28 | A code that is a proper prefix of a field token (`BACKEND` in `BACKEND2,FRONTEND`) occurs in the field but does not select the post. A later whole token does select it. |
| `PostViews.QuarterExpansion` | posts/views.py:34-42 | `n분기` (n from 1 to 4) stands for exactly the months 3n-2, 3n-1 and 3n; any other name stands for none. |
| `PostViews.UnknownQuartersNoConstraint` | posts/views.py:40-44 | When no quarter name is known the month list is empty, so the quarter group adds no constraint. |
| `PostViews.DedupSameGroup` | posts/views.py:43-48 | De-duplicating the month list does not change which posts pass the quarter group. |
| `PostViews.NewPostHidden` | posts/views.py:11 | Adding an unpublished post leaves the listing unchanged. |
| `PostViews.FieldAndQuarter` | posts/views.py:22-48 | With one field code and one quarter name, a post passes iff both hold: the code is one of its field tokens, and the quarter is unknown or one of its months is a month token of the post. |
| `PostViews.ScenarioTokens` | posts/views.py:24 | Example: the fields `"BACKEND,FRONTEND"` and months `"3월,4월"` split into exactly those tokens. It links the scenario lemmas to the literal strings. |
| `PostViews.QuarterScenario` | posts/views.py:22-48 | That post passes `field=BACKEND` with any quarter holding March or April, `1분기` included. |
| `PostViews.TwoTokens` | posts/views.py:28 | Helper for `WholeTokenOnly` and `ScenarioTokens`: a field made of two comma-free codes splits into those two tokens. |
| `Query.AnyTokenHolds` | posts/views.py:26-28 | The OR of token lookups accumulated from an empty `Q()` holds iff some code is a whole token of the column. |
| `Query.AndHolds` | main/views.py:55-57 | Helper for `MainRecommendations`: `&` of two `Q` objects is the conjunction of their conditions, an empty `Q()` included. |
| `Query.OrHolds` | main/views.py:40-48 | Helper for `ProfileQueryHolds`: OR of two non-empty `Q` objects is disjunction; an empty `Q()` on either side drops out and leaves the other operand. |
| `Query.FilterQ` | posts/views.py:29 | `filter(q)` keeps exactly the rows that satisfy `q`, each taken from the input. |
| `Query.OrQ` | main/views.py:42 | Combining with an empty `Q()` returns the other operand. |
| `Text.RegexTokenIsPiece` | posts/views.py:28 | For a comma-free code `v`, the token regex matches a field iff `v` is one of the pieces of the field split on `","`. |
| `Text.Split` | posts/forms.py:66 | `str.split(",")` never returns an empty list. |
| `Text.SplitJoin` | posts/forms.py:66-73 | Splitting a join of comma-free parts on the separator gives the parts back. |
| `Text.SplitPiecesFree` | posts/views.py:24 | No piece of a split contains the separator. |
| `Seqs.Dedup` | posts/views.py:43 | `list(dict.fromkeys(s))` has no repetitions and the same elements as `s`. |
| `Seqs.DedupFirstOrder` | posts/views.py:43 | The elements of the de-duplicated list come in the order of their first occurrences in the input, as `dict.fromkeys` keeps them. |
| `Seqs.DedupIsSubsequence` | posts/views.py:43 | De-duplication keeps the first occurrence of each element: the result is a subsequence of the input, and its elements come in the order of their first occurrences. |
| `Seqs.DedupDistinct` | posts/views.py:43 | A list without repetitions is left as it is. |
| `Seqs.FilterIsSubsequence` | posts/views.py:29 | Filtering only removes rows and keeps their order. |
| `PostModels.SortNewestFirst` | posts/models.py:79 | `ordering = ["-created_at"]` yields the same posts, newest first. |
| `PostModels.SortedMembers` | posts/models.py:79 | Ordering neither adds nor loses a post. |
| `PostModels.FilterKeepsOrder` | posts/models.py:79 | Filtering a newest-first list leaves it newest first. |
| `PostModels.NewPost` | posts/models.py:71 | A new post is unsaved and unpublished. |
| `PostModels.ValidMonths` | posts/models.py:19 | The valid-month list has twelve entries. |
| `PostModels.ValidMonthsListed` | posts/models.py:19 | The twelve entries are `"1월"` to `"12월"` in order. |
| `PostModels.ValidMonthsDistinct` | posts/models.py:19 | The entries are pairwise different, and a string is valid iff it is the label of a month from 1 to 12. |
| `PostModels.ValidateMonthList` | posts/models.py:10-25 | The answer is "not a list" exactly for a non-list. A list is accepted iff every item is a valid month string, the empty list included; a refused list is refused by naming its first invalid item. |
| `PostModels.MonthsDisplay` | posts/models.py:84-94 | A missing or empty value displays `"기간 미정"`. |
| `PostModels.DisplayOfMonths` | posts/models.py:84-94 | A non-empty list of valid months never displays the placeholder; its display starts with a digit. |
| `MainViews.MainRecommendations` | main/views.py:9-60 | An anonymous viewer gets nothing. Otherwise the result has no repetitions and is newest first, and a post is in it iff it is in the table and meets every `Recommends` clause: published, the month label occurs in its months, the profile clause holds and the activity type matches. |
| `MainViews.ProfileQueryHolds` | main/views.py:40-48 | The profile clause `q_interest OR q_eligibility`, built by adding one `icontains` test per set code, holds exactly when `ProfileMatches`: no code set, or some set code occurs (ignoring case) in its column. |
| `MainViews.DistinctMatches` | main/views.py:60 | Filtering the newest-first table and keeping each row once gives a repetition-free, newest-first list of exactly the table's rows that satisfy the query. |
| `MainViews.RecommendPage` | main/views.py:83-106 | An anonymous viewer or one with no interest gets nothing; the result is newest first. |
| `MainViews.RecommendPageContents` | main/views.py:99-106 | For a signed-in viewer with an interest code, the page holds exactly the published posts whose fields contain that code, ignoring case. |
| `MainViews.PrefixContained` | main/views.py:42 | A code matches any field that begins with it: `BACKEND` matches `BACKEND2,FRONTEND`. |
| `MainViews.SuffixContained` | main/views.py:38 | A label matches any field that ends with it. |
| `MainViews.JanuaryMatchesNovember` | main/views.py:34-38 | Example of the substring lookup: in January a post open only in `"11월"` passes the month clause, although `"1월"` is not one of its tokens. |
| `MainViews.LowerAppend` | main/views.py:38 | Helper for `PrefixContained` and `SuffixContained`: ASCII lower-casing distributes over concatenation. |
| `PostForms.Encode` | posts/forms.py:73 | An empty selection is stored as `""` and a single code as itself. A non-empty selection of comma-free codes is stored so that splitting on "," gives exactly the codes back, in order. |
| `PostForms.CleanField` | posts/forms.py:71-89 | A missing selection is stored as `""`. For clean codes the stored string is empty iff the selection is. |
| `PostForms.Decode` | posts/forms.py:66 | A missing or empty stored value decodes to `[]`. Otherwise there is one stripped piece per comma-separated piece. |
| `PostForms.EncodeDecode` | posts/forms.py:66-73 | For non-empty, comma-free, unpadded codes, decoding the stored string gives the selection back. |
| `PostForms.EmptyCodeLost` | posts/forms.py:66-73 | A selection of the one empty code is stored as `""` and reads back as no selection. |
| `PostForms.EmptyPieceKept` | posts/forms.py:66 | Splitting keeps empty pieces: `a,,b` decodes to `a`, `""`, `b`. |
| `PostForms.DecodeReadsDisplay` | posts/forms.py:66 | The `", "`-joined month display, read by the decoder, gives the months back. |
| `PostForms.RawField` | posts/forms.py:55-65 | `getattr` yields a value exactly for the five converted fields. For each of them, that value is the post's stored string of that field. |
| `PostForms.AfterInitContents` | posts/forms.py:63-69 | For a saved post, each of the five fields gets the decoded stored string and every other entry is unchanged. An unsaved post changes nothing. |
| `PostForms.PostAdminForm.constructor` | posts/forms.py:52-69 | The loop over the five fields leaves both initial-value maps equal to `AfterInit` of their base maps. |
| `PostForms.InitialsAgree` | posts/forms.py:68-69 | After `__init__` the field initial and the form initial of each converted field are the same list. |
| `PostForms.SaveAndReopen` | posts/forms.py:63-85 | For each of the five converted fields, storing a clean selection in it and reopening the saved post shows the same selection in that field. |
| `PostForms.StoredMonthsRefused` | posts/models.py:14-17 | The month validator refuses what the form stores for the selection `"3월"`. |
| `PostForms.EncodedMonthsValid` | posts/forms.py:71-77 | Every stored selection of valid months passes the stored-string check and decodes back to the selection. |
| `PostForms.StoredDisplayAsWritten` | posts/models.py:84-88 | A stored empty string displays the placeholder. |
| `PostForms.StoredDisplayScattersCharacters` | posts/models.py:86-87 | The display helper shows the stored `"3월"` as `"3, 월"`, not as the list display `"3월"`. |
| `PostForms.StoredDisplay` | posts/models.py:84-88 | The decoded display of a stored empty string is the placeholder. |
| `PostForms.StoredDisplayMatchesList` | posts/models.py:84-94 | The decoded display of a stored month selection equals the list display of that selection. |
| `PostForms.MonthLabelClean` | posts/models.py:19 | Every valid month label is non-empty, comma-free and unpadded. |
| `AdminRequests.DeclaredCodes` | admin_requests/models.py:12-21 | The request types are exactly CREATE and UPDATE and the statuses exactly processing, done and rejected. The default status is among them. |
| `AdminRequests.NewRequest` | admin_requests/models.py:48-53 | A new request has status `"processing"`, a declared code, and no reviewer and no comment. |
| `AdminRequests.Display` | admin_requests/models.py:76 | An undeclared value displays as itself; the first declared code displays its label. |
| `AdminRequests.DisplayLabel` | admin_requests/models.py:76 | With distinct codes, every declared code displays its own label. |
| `AdminRequests.StrOfDeclared` | admin_requests/models.py:75-76 | For any request whose type and status are declared codes, `__str__` is the type's label, " - ", the title and the status's label in parentheses. This lemma carries `AdminRequests.Str`. |
| `AdminRequests.StrForms` | admin_requests/models.py:75-76 | A fresh CREATE request reads `"게시글 생성 요청 - <title> (요청 처리중)"`. An UPDATE request marked approved shows the raw `approved`. |
| `AdminRequests.Clean` | admin_requests/models.py:78-88 | Every error is keyed on `target_post`. |
| `AdminRequests.CleanOutcomes` | admin_requests/models.py:78-88 | `clean` fails iff the request is an UPDATE without a target or a CREATE with one, with the matching message. Any other request type passes. |
| `AdminActions.SetStatus` | admin_requests/admin.py:6-11 | The same keys are kept. Selected requests get the new status; unselected requests are unchanged. |
| `AdminActions.OnlyStatusChanges` | admin_requests/admin.py:6-11 | Every field but the status keeps its value, the reviewer, review comment and timestamps included. |
| `AdminActions.SetStatusIdempotent` | admin_requests/admin.py:6-11 | Running an action twice equals running it once. |
| `AdminActions.RejectKeepsStatusesDeclared` | admin_requests/admin.py:10-11 | Rejecting keeps every status among the declared codes. |
| `AdminActions.ApproveBreaksStatusesDeclared` | admin_requests/admin.py:6-7 | Approving any stored request leaves an undeclared status. |
| `AdminActions.RequestTable.MakeApproved` | admin_requests/admin.py:6-7 | The stored requests become `SetStatus(old, selection, "approved")`. |
| `AdminActions.RequestTable.MakeRejected` | admin_requests/admin.py:10-11 | The stored requests become `SetStatus(old, selection, "rejected")`; if all statuses were declared, they still are. |
| `Users.CreateUserOutcome` | users/models.py:16-30 | `create_user` fails iff username, email or nickname is empty, naming the first empty one in that order. Otherwise the user carries the arguments, the normalised email and the extras over the defaults. This lemma carries `Users.CreateUser`. |
| `Users.SetDefault` | users/models.py:35-37 | `setdefault` keeps a present key and adds a missing one. |
| `Users.SuperuserFieldsFlags` | users/models.py:35-37 | Each flag keeps its given value or defaults to True. |
| `Users.CreateSuperuser` | users/models.py:32-44 | A staff flag that is not the value True fails first, then a superuser flag that is not True. Otherwise the result is `create_user` with the defaulted flags. |
| `Users.SuperuserByDefault` | users/models.py:35-44 | With no flags given, the superuser is created staff, superuser and active. |
| `Users.InactiveSuperuserAccepted` | users/models.py:37-44 | An explicit `is_active=False` passes and the user is inactive. |
| `Users.FlagsMustBeTrue` | users/models.py:39-40 | A truthy non-True staff flag such as `1` is refused. |
| `Users.Defaults` | users/models.py:87-105 | A new user is active, not staff and not superuser, with interest FRONTEND, affiliation STUDENT_CS and level NOVICE. |
| `Users.DefaultsDeclared` | users/models.py:51-101 | The defaults FRONTEND, STUDENT_CS and NOVICE are declared choices. |
| `Users.PermissionsIgnoreArguments` | users/models.py:137-141 | `has_perm` and `has_module_perms` give the same answer whatever they are asked: the user's superuser flag, False when it is unset. This lemma carries `Users.HasPerm` and `Users.HasModulePerms`. |
| `Users.CreatedPermissions` | users/models.py:134-141 | A default superuser has every permission and a plain user none. Both are shown by their nickname. This lemma carries `Users.Str`. |

## Left out

- Persistence is not modelled: the ORM, saving, auto-increment keys, timestamps (plain integers here) and database uniqueness of username, nickname and email.
- Template rendering, HTTP responses, sessions and the debug `print` calls are not modelled.
- Authentication and password hashing are left out. `set_password` is modelled as keeping the given value.
- `normalize_email` is a library call whose body is not shown; it is a function parameter.
- `timezone.now()` is left out; the current month is a parameter.
- The regex engine is reduced to whole-token equality. Codes are assumed free of regex metacharacters, as they are spliced into the pattern unescaped.
- Case folding is ASCII only. The codes and labels involved are ASCII or Hangul, and Hangul has no case.
- `main`'s fallback when the user record lacks the profile attributes (`AttributeError`, main/views.py:24-28) is not modelled. The profile fields always exist on the user model.
- The texts of the `ValueError` messages raised by `create_user` and `create_superuser` are not modelled. The model names each failure by a `UserError` case instead, in the order the checks run.
- `posts_detail` and `Post.__str__` are formatting and lookup glue, not the filtering core.
- Keyword-argument errors are not modelled. A second value for `username`, `email`, `nickname` or `password` raises `TypeError` at the `create_user` or `create_superuser` call itself, since those names are bound to its own parameters and never reach `extra_fields`. An unknown field name in `extra_fields` raises `TypeError` in the model constructor. The model's `extraFields` map accepts any key, these four included, and copies it into the user's attributes.
- `PostForms.PostAdminForm.constructor` builds both maps in locals and assigns them at the end, instead of writing into `self.initial` entry by entry. The end state is the same.
- `PostViews.QuarterScenario` and the other scenario lemmas are stated over the split tokens of the example strings. `PostViews.ScenarioTokens` connects them to the literal strings.
- `posts/models.py` declares neither the `type`, `activity_type` and `required_dev_levels` columns nor the choice lists that `posts/forms.py:4-10` imports from it, although the views filter on those columns. The model's `Post` adds the three columns as strings, as the views and the form use them.
- The views, the form and the stored post disagree on the shape of the month and code fields (see Findings). The model stores the comma-joined strings the form writes and the views filter. The validator and the display helpers are modelled on lists, as `posts/models.py` declares them.

## Findings

| source | as written | input that shows it | evidently intended | confidence | as-written member | corrected member |
|---|---|---|---|---|---|---|
| posts/models.py:14-17 | The month validator on the JSON field refuses every non-list, but the admin form stores a comma-joined string (posts/forms.py:73). | Ticking `3월` stores `"3월"`, which is refused as "not a list". | Accept the stored string when every decoded piece is a valid month. | medium: the model file may lag behind the schema the views read; not executed | `PostForms.StoredMonthsRefused` | `PostForms.EncodedMonthsValid` |
| posts/models.py:86-87 | The display helpers join the stored value with `", "`. For the string the form stores, that joins its characters. | Stored `"3월"` displays as `"3, 월"`. | Display the decoded months joined by `", "`, which is `"3월"`. | medium: as above; not executed | `PostForms.StoredDisplayScattersCharacters` | `PostForms.StoredDisplayMatchesList` |
