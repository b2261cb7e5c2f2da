# Foodgram backend core in Dafny

This project models the core of the foodgram recipe API, a Django REST backend where users publish recipes, follow authors, mark favorites and fill a shopping cart. It proves properties of the model.

The model works over an in-memory database instead of Django's ORM:

- **Tables.** The tables of `recipes/models.py` and `users/models.py` become values: maps keyed by primary key, and sequences where row order matters. Their unique constraints, foreign keys and the tag-colour regex become predicates (module `Schema`).
- **Payload validation.** `RecipeEditSerializer.validate` is a pure function with a result datatype (module `Validation`). It is proved equivalent to a direct statement of its requirements, and proved to report the first failing check in the code's order.
- **Membership ledgers.** The cart, the favorites and the subscriptions are one class, `Ledger.PairLedger`, holding a sequence of unique (owner, target) pairs. `Database.Database` has three instances of it.
- **The database object.** `Database.Database` holds every table. Its methods are the recipe writer (`create`, `create_ingredients`, `update`), the delete cascades and the API actions on the ledgers.
  - Every method keeps the class invariant `Valid`, which is the unique constraints plus the foreign keys.
  - Every public method states the new contents of the tables it changes, and that the other tables stay as they were.
- **The shopping list.** `RecipeViewSet.download_file` is a join of cart, lines and ingredients, grouped by (ingredient name, measurement unit), followed by a rendering loop (module `Aggregation`).
  - The grouping is proved to produce each (name, unit) key at most once, and only for keys the cart needs.
  - Each group's total is proved to equal an independent sum over all lines of the cart, and the grand total is preserved.
  - The rendered text is proved to read back, line by line, as the header followed by one formatted line per group.
- **The image field.** `Base64ImageField.to_internal_value` cuts a `data:` URL (RFC 2397, section 3) at `;base64,` and decodes the payload. Base64 is section 4 of RFC 4648, decoded as Python's non-validating `base64.b64decode` does (modules `DataUri`, `Base64`, `Text`). An encode-then-wrap round trip is proved.

Behaviour that depends on the code, not on a description of it:

- **Validation.**
  - The validator raises on the first failing check (name, ingredient existence, repeated ingredients, repeated tags, amounts, cooking time), so exactly one error is reported.
  - The repeated-ingredients error is raised without a field, so it goes under `non_field_errors`.
  - The tag ids pass through the `tags` relation field before `validate` runs. That field rejects an unknown id or an empty list under the key `tags`: it is a required many-to-many field.
  - A broken unique constraint is not turned into a 400 response; the model reports it as `ConstraintViolation`.
- **Update order.** `update` replaces the lines and the tags before `super().update` saves the recipe. A name that collides with another recipe of the same author therefore fails only after the lines and tags were replaced. No transaction appears in the code, and the model keeps that order.
- **Ledger check order.**
  - Adding to the cart or to favorites checks for a duplicate pair (in the serializer's `validate`) before the recipe lookup that can answer 404 (in `perform_create`).
  - Removing checks only for the pair.
  - Unsubscribing looks up the author first (404), then the pair (400).

## Model

| member | source | states |
|---|---|---|
| Text.IntToString | backend/api/views.py:147-149 | Python's `str` of an integer: at least one character, all decimal digits or '-' |
| Text.IntToStringRoundTrip | backend/api/views.py:147-149 | a rendered total or id parses back to the same integer |
| Text.IntToStringInjective | backend/api/serializers.py:254 | different integers render differently |
| Text.Find | backend/api/serializers.py:21 | the first occurrence of the separator, or none when it does not occur |
| Text.Split | backend/api/serializers.py:21-22 | `str.split(sep)` yields at least one part |
| Text.SplitJoin | backend/api/serializers.py:21-22 | joining the parts of a split with the separator gives back the string |
| Text.SplitPartsFree | backend/api/serializers.py:21-22 | no part of a split contains the separator |
| Text.SplitWithoutSeparator | backend/api/serializers.py:22 | a string holding no character equal to the separator's first splits into itself alone |
| Text.SplitAfterPrefix | backend/api/serializers.py:21-22 | a prefix holding no character equal to the separator's first is the first part, and the rest splits on its own |
| Text.StartsWithIff | backend/api/serializers.py:20 | `startswith` holds exactly when the string is the prefix followed by some text |
| Base64.SextetValue | backend/api/serializers.py:23 | a character of the RFC 4648 alphabet stands for a value below 64 |
| Base64.SextetChar | backend/api/serializers.py:23 | the alphabet's character for each value decodes back to that value and is ASCII |
| Base64.Feed | backend/api/serializers.py:23 | a decoding step keeps the decoder's leftover bits consistent with its position in the quantum |
| Base64.Encode | backend/api/serializers.py:23 | the encoding has 4 characters per started 3-byte group, all ASCII alphabet or pad characters |
| Base64.Quantum | backend/api/serializers.py:23 | three bytes encode as four ASCII alphabet characters |
| Base64.OneByte | backend/api/serializers.py:23 | a final byte encodes as four ASCII characters, the last two pads |
| Base64.TwoBytes | backend/api/serializers.py:23 | two final bytes encode as four ASCII characters, the last a pad |
| Base64.RunQuantum | backend/api/serializers.py:23 | four characters of an encoded group decode to its three bytes |
| Base64.RunFour | backend/api/serializers.py:23 | four alphabet characters feed their four values to the decoder, in order, before the rest is read |
| Base64.FeedQuantum | backend/api/serializers.py:23 | the four sextets cut from three bytes, fed to an empty decoder, emit exactly those three bytes |
| Base64.RunLastOne | backend/api/serializers.py:23 | a padded one-byte tail decodes to that byte |
| Base64.RunLastTwo | backend/api/serializers.py:23 | a padded two-byte tail decodes to those bytes |
| Base64.RunEncode | backend/api/serializers.py:23 | decoding the encoding of any bytes appends exactly those bytes |
| Base64.Run | backend/api/serializers.py:23 | the decoding loop never reports non-ASCII input, and the bytes decoded before a point stay a prefix of the result |
| Base64.Decode | backend/api/serializers.py:23 | `b64decode` of a string fails as non-ASCII exactly when some character is above 127 |
| Base64.DecodeEncode | backend/api/serializers.py:23 | `b64decode` inverts the standard encoder on every byte string |
| DataUri.ToInternalValue | backend/api/serializers.py:17-25 | input is handed on unchanged exactly when it is an upload or a string not starting with `data:image` |
| DataUri.DecodedFileShape | backend/api/serializers.py:20-23 | a decoded file comes from header + `;base64,` + payload with one separator; its content is the decoded payload and its name is `temp.` plus the header's last '/' piece |
| DataUri.SplitEncodedUrl | backend/api/serializers.py:21 | a header without ';' and a base64 payload split into exactly those two parts |
| DataUri.SplitMediaType | backend/api/serializers.py:22 | the extension is what follows the last '/' of `data:image/<ext>` |
| DataUri.EncodedImageRoundTrip | backend/api/serializers.py:17-25 | wrapping encoded bytes as a `data:image/<ext>;base64,` URL yields the file `temp.<ext>` with those bytes |
| Schema.LinesOf | backend/recipes/models.py:118-124 | the lines of one recipe are exactly the table's lines with that recipe |
| Schema.DropLinesOf | backend/api/serializers.py:298 | `ingredients.clear()` keeps exactly the other recipes' lines, leaves each of their selections as it was, and keeps the line constraints |
| Schema.LinesOfAppend | backend/recipes/models.py:118-124 | selecting one recipe's lines distributes over appended tables |
| Schema.ValidLinesAppend | backend/recipes/models.py:140-148 | appending lines whose (recipe, ingredient) keys are new keeps `unique_recipe_ingredient` and the minimum amount |
| Schema.ValidLinesInit | backend/recipes/models.py:140-148 | a valid table without its last line is valid and has no line with the last line's key |
| Schema.LinesOfNone | backend/recipes/models.py:118-124 | a table without lines of a recipe selects nothing for it |
| Schema.LinesOfAll | backend/recipes/models.py:118-124 | a table of one recipe's lines is selected whole and in order |
| Validation.FirstUnknown | backend/api/serializers.py:249-255 | no id is reported exactly when every ingredient exists; a reported id is the first unknown one in payload order |
| Validation.BelowMinimum | backend/api/serializers.py:263-264 | the filtered list holds exactly the entries with amount below 1 |
| Validation.Validate | backend/api/serializers.py:244-274 | an accepted payload is returned unchanged |
| Validation.DistinctIffNoRepeats | backend/api/serializers.py:256-262 | list length equals set size exactly when no element repeats |
| Validation.NoRepeatedIds | backend/api/serializers.py:256-258 | the length-against-set test on ids holds exactly when no two entries share an id |
| Validation.NoneBelowMinimum | backend/api/serializers.py:263-267 | the filtered list is empty exactly when every amount is at least 1 |
| Validation.ValidateAccepts | backend/api/serializers.py:244-274 | the validator accepts, returning the payload unchanged, exactly when the name has at least 4 characters, all ingredients exist and are distinct, tags are distinct, amounts are at least 1 and 1 ≤ cooking time ≤ 300 |
| Validation.ValidateFirstFailure | backend/api/serializers.py:244-272 | each error is raised exactly when its check fails and every earlier check passed: a short name before any ingredient check, the first unknown id in payload order, then repeats, tags, amounts, cooking time |
| Validation.UnknownReported | backend/api/serializers.py:245-255 | with a valid name, the unknown-ingredient error names exactly the first id missing from the catalog |
| Validation.Key | backend/api/serializers.py:244-272 | only the repeated-ingredients error, raised without a field, goes under `non_field_errors` |
| Validation.ResponseIdentifiesError | backend/api/serializers.py:244-272 | two errors with the same key and message are the same error, unknown ingredient ids included |
| Validation.UnknownIngredientMessageNamesId | backend/api/serializers.py:253-255 | the unknown-ingredient message carries the id in decimal, which parses back to it, and different ids give different messages |
| Validation.ValidatePasswordChange | backend/api/serializers.py:62-70 | a new password equal to the current one is refused under `new_password` before the current password is checked; otherwise a wrong current password is refused under `current_password` |
| Aggregation.Insert | backend/api/views.py:143-145 | a row whose key has a group leaves the number of groups as it was; a new key opens one group at the end, leaving the others untouched |
| Aggregation.GroupRows | backend/api/views.py:143-145 | grouping never yields more groups than rows, and some rows give some group |
| Aggregation.InsertFacts | backend/api/views.py:143-145 | adding one row to the groups adds its key, keeps keys distinct, and adds its amount to its key's total and to the grand total |
| Aggregation.InsertKeys | backend/api/views.py:143-145 | after adding a row the groups have exactly the old keys and the row's key |
| Aggregation.InsertDistinct | backend/api/views.py:143-145 | adding a row keeps the group keys distinct |
| Aggregation.InsertTotals | backend/api/views.py:143-145 | adding a row adds its amount to its own key's total, to no other key's, and to the grand total |
| Aggregation.GroupRowsDistinct | backend/api/views.py:143-145 | grouping yields each key at most once |
| Aggregation.GroupRowsKeys | backend/api/views.py:143-145 | a key has a group exactly when some row has it |
| Aggregation.GroupRowsTotalOf | backend/api/views.py:143-145 | a key's total is the sum of the amounts of the rows with that key |
| Aggregation.TotalOfDistinct | backend/api/views.py:143-145 | with distinct keys, a group's total is the total for its key |
| Aggregation.TotalOfAbsent | backend/api/views.py:143-145 | a key without a group totals 0 |
| Aggregation.GroupRowsTotals | backend/api/views.py:143-145 | every group's total is the sum of the amounts of the rows with its key |
| Aggregation.GroupRowsPreservesSum | backend/api/views.py:143-145 | grouping neither drops nor duplicates an amount: the totals add up to the sum of all rows |
| Aggregation.SumForAppend | backend/api/views.py:143-145 | per-key and overall sums distribute over appended rows |
| Aggregation.LinesOfResolvable | backend/recipes/models.py:125-129 | lines whose ingredients exist select lines whose ingredients exist |
| Aggregation.LineRowsSums | backend/api/views.py:139-145 | the joined rows of lines sum per key and overall to the lines' own sums |
| Aggregation.JoinRowsSums | backend/api/views.py:139-145 | the join of the cart sums per key and overall to the reference sums over every cart recipe's lines |
| Aggregation.RowHasKeyAppend | backend/api/views.py:143-145 | a key occurs in appended rows exactly when it occurs in either part |
| Aggregation.LineRowsKeys | backend/api/views.py:139-145 | a key occurs in the joined rows of lines exactly when some line's ingredient has it |
| Aggregation.JoinRowsKeys | backend/api/views.py:139-145 | a key occurs in the join exactly when some line of a cart recipe has an ingredient with that name and unit |
| Aggregation.ShoppingList | backend/api/views.py:139-145 | each (name, unit) pair appears in at most one group of the shopping list |
| Aggregation.ShoppingListKeys | backend/api/views.py:139-145 | a (name, unit) is listed exactly when a recipe in the cart has a line of such an ingredient |
| Aggregation.ShoppingListTotals | backend/api/views.py:139-145 | each listed total is the sum of the amounts of all cart lines with that name and unit, over all cart recipes |
| Aggregation.ShoppingListPreservesSum | backend/api/views.py:143-145 | the listed totals add up to the sum of all line amounts of all cart recipes |
| Aggregation.RenderAllSnoc | backend/api/views.py:146-150 | rendering one more group appends exactly its line |
| Aggregation.RenderAllSplits | backend/api/views.py:146-150 | the rendered groups read back as one line per group followed by the final empty piece |
| Aggregation.LineText | backend/api/views.py:147-149 | a group's text has no line break when its name and unit have none |
| Aggregation.SingleLineKeysTail | backend/api/views.py:146-150 | the groups after the first also have names and units free of line breaks |
| Aggregation.HeaderSplits | backend/api/views.py:138 | the header reads back as the title line and an empty line before the body |
| Aggregation.TitleLineSplits | backend/api/views.py:138 | a title free of the separator, two separators and a body read back as the title, an empty piece and the body's pieces |
| Aggregation.EmptyFirstPiece | backend/api/views.py:138 | text that starts with the separator reads back as an empty piece followed by the rest's pieces |
| Aggregation.ShoppingText | backend/api/views.py:138-150 | the downloaded text starts with the header |
| Aggregation.ShoppingTextLines | backend/api/views.py:138-150 | the download text reads back as the title, an empty line, one line per group, and the empty piece after the last line break |
| Aggregation.OuterJoinRows | backend/api/views.py:139-145 | the outer join keeps every cart entry: it has at least one row per cart recipe |
| Aggregation.OuterRows | backend/api/views.py:139-145 | a cart recipe contributes at least one row to the outer join, and a NULL row exactly when it has no lines |
| Aggregation.OuterJoinNullRows | backend/api/views.py:139-145 | the outer join has a NULL row exactly when some cart recipe has no lines |
| Aggregation.ShoppingTextAsWritten | backend/api/views.py:138-150 | the text as written starts with the header too |
| Aggregation.LinelessRecipeListed | backend/api/views.py:143-150 | as written, a cart recipe without lines adds the line `None (None) — None`; the corrected text is the bare header |
| Aggregation.LinelessAsWritten | backend/api/views.py:143-150 | a cart of one recipe without lines renders, as written, the header and the line `None (None) — None` |
| Aggregation.LinelessInnerJoin | backend/api/views.py:143-150 | the same cart renders the header only under the inner join |
| Ledger.Keep | backend/api/views.py:161-162 | filtering keeps exactly the rows that pass, without repeats and without growing |
| Ledger.DistinctSnoc | backend/recipes/models.py:170-174 | appending a new pair keeps the pairs unique |
| Ledger.Without | backend/api/views.py:184-187 | deleting a pair keeps exactly the other rows, still unique |
| Ledger.DropOwner | backend/recipes/models.py:155-160 | a cascade on the owner keeps exactly the rows of other owners |
| Ledger.DropTarget | backend/recipes/models.py:161-166 | a cascade on the target keeps exactly the rows of other targets |
| Ledger.Targets | backend/api/views.py:161-162 | an owner's targets are exactly the targets of that owner's rows |
| Ledger.TargetsDistinct | backend/recipes/models.py:170-174 | unique pairs give each owner distinct targets |
| Ledger.TargetsAppend | backend/api/views.py:161-162 | an owner's targets distribute over appended tables |
| Ledger.TargetsKeep | backend/api/views.py:179-181 | a filter that keeps all of an owner's rows leaves that owner's targets as they were |
| Ledger.WithoutCount | backend/api/views.py:184-187 | in a table of unique pairs, deleting a present pair removes exactly one row, and deleting an absent pair removes none |
| Ledger.KeepAll | backend/api/views.py:161-162 | a filter that every row passes keeps the table |
| Ledger.AddThenRemove | backend/api/views.py:170-189 | storing a new pair and then deleting it gives back the table |
| Ledger.PairLedger.constructor | backend/recipes/models.py:154-174 | a new ledger is empty |
| Ledger.PairLedger.TargetsOf | backend/api/views.py:161-162 | the owner's targets are exactly those of its stored pairs, without repeats |
| Ledger.PairLedger.Add | backend/recipes/models.py:170-174 | a pair is inserted exactly when absent, at the end; afterwards it is present and other owners' targets are unchanged |
| Ledger.PairLedger.Remove | backend/api/views.py:184-187 | exactly that pair is deleted, by one row when present; afterwards it is absent and other owners' targets are unchanged |
| Ledger.PairLedger.RemoveOwner | backend/recipes/models.py:155-160 | the owner's rows go, and every other owner's targets stay |
| Ledger.PairLedger.RemoveTarget | backend/recipes/models.py:161-166 | the target's rows go, and no owner keeps that target |
| Database.NewLines | backend/api/serializers.py:276-284 | one line (recipe, ingredient id, amount) per payload entry, in payload order |
| Database.Orphaned | backend/recipes/models.py:73-79 | every recipe survives, and the deleted author's recipes have no author |
| Database.NewLinesValid | backend/api/serializers.py:276-284 | lines from a validated payload meet `unique_recipe_ingredient` and the minimum, and point at the recipe and at existing ingredients |
| Database.ReplaceLines | backend/api/serializers.py:296-299 | clear then create: the recipe's lines become exactly the new lines, other recipes' lines stay, and the table stays valid |
| Database.AppendLines | backend/api/serializers.py:289-291 | creating lines for a new recipe: its lines are exactly the new lines, other recipes' lines stay, and the table stays valid |
| Database.TagsResolve | backend/api/serializers.py:232-236 | the `tags` relation field accepts exactly a non-empty list whose ids are all existing tags |
| Database.InsertKeepsNamesUnique | backend/recipes/models.py:107-112 | a new recipe keeps `unique_author_recipe` exactly when it has no author or its author has no recipe of that name |
| Database.RenameKeepsNamesUnique | backend/recipes/models.py:107-112 | a rename keeps `unique_author_recipe` exactly when the recipe has no author or no other recipe of its author has the new name |
| Database.OrphanedKeepsNamesUnique | backend/recipes/models.py:73-79 | `SET_NULL` on an author keeps `unique_author_recipe`, because NULL authors are not compared |
| Database.RenderText | backend/api/views.py:138-150 | the `+=` loop, starting from the header, appends each group's line in order |
| Database.RenderStep | backend/api/views.py:146-150 | appending the next group's line to the text built so far gives the text for one more group |
| Database.Database.constructor | backend/users/models.py:5-15 | a database of the given users, tags and ingredients with no recipes and empty ledgers satisfies every invariant |
| Database.Database.IsFavorited | backend/api/serializers.py:205-211 | no value for an anonymous viewer; otherwise true exactly when the (viewer, recipe) pair is stored |
| Database.Database.IsInShoppingCart | backend/api/serializers.py:213-219 | no value for an anonymous viewer; otherwise true exactly when the (viewer, recipe) pair is stored |
| Database.Database.IsSubscribed | backend/api/serializers.py:36-41 | true exactly when the viewer is authenticated and follows the author |
| Database.Database.CreateRecipe | backend/api/serializers.py:286-293 | refused under `tags`, then with the validator's first error, then by `unique_author_recipe`, with no change; on success the new recipe has the payload fields and author, its tag set is the payload tags, and its lines are one per entry, with nothing else changed |
| Database.Database.InsertRecipe | backend/api/serializers.py:286-293 | a fresh recipe id gets the payload fields and the author, the payload's tag set and one line per entry appended to the table, with users, tags, ingredients and the other recipes untouched |
| Database.Database.UpdateRecipe | backend/api/serializers.py:295-304 | 404 for an unknown recipe, then the tags field and the validator with no change; otherwise the tag set and the recipe's lines are replaced, the fields are overwritten unless the name collides, and users, tags, ingredients and other recipes' lines are untouched |
| Database.Database.ApplyUpdate | backend/api/serializers.py:295-304 | lines replaced only when `ingredients` is given, tags only when `tags` is given, then the plain fields saved; a name collision fails the save after the replacements; the author and other recipes stay |
| Database.Database.ReplaceIngredients | backend/api/serializers.py:296-299 | the recipe's lines become exactly the new lines; everything else stays |
| Database.Database.SetTags | backend/api/serializers.py:300-302 | the recipe's tag set becomes exactly the given tags; everything else stays |
| Database.Database.Overwrite | backend/api/serializers.py:304 | the plain fields are overwritten and the author stays; everything else stays |
| Database.Database.DeleteRecipe | backend/recipes/models.py:118-124 | 404 for an unknown recipe; otherwise the recipe, its tag links, its lines, and its cart and favorite rows go, and nothing else changes |
| Database.Database.DropRecipe | backend/recipes/models.py:118-124 | once no cart or favorite row names the recipe, the recipe, its tag links and its lines go and nothing else changes |
| Database.Database.DeleteUser | backend/users/models.py:38-50 | 404 for an unknown user; otherwise the user's recipes survive without author, the user's cart and favorite rows and subscriptions in both directions go, and tags, ingredients, tag links and lines are untouched |
| Database.Database.DropRowsOf | backend/users/models.py:38-50 | the user's cart and favorite rows and subscriptions in both directions go, leaving no row that names the user |
| Database.Database.DropAccount | backend/recipes/models.py:73-79 | the account goes and its recipes keep their rows with no author |
| Database.Database.AddToCart | backend/api/views.py:170-174 | refused under `errors` exactly when the pair is stored, then 404 for an unknown recipe; otherwise the pair is appended, the flag reads true, and other users' carts are unchanged |
| Database.Database.RemoveFromCart | backend/api/views.py:176-189 | refused under `errors` with no change exactly when the pair is absent; otherwise exactly that pair is deleted; the flag then reads false and other users' carts are unchanged |
| Database.Database.AddToFavorites | backend/api/views.py:204-210 | refused under `errors` exactly when the pair is stored, then 404 for an unknown recipe; otherwise the pair is appended, the flag reads true, and other users' favorites are unchanged |
| Database.Database.RemoveFromFavorites | backend/api/views.py:212-222 | refused under `errors` with no change exactly when the pair is absent; otherwise exactly that pair is deleted; the flag then reads false and other users' favorites are unchanged |
| Database.Database.Subscribe | backend/api/serializers.py:93-103 | refused when the pair is stored, then under `error` exactly when user equals author, then 404 for an unknown author; otherwise (user, author) is appended |
| Database.Database.Unsubscribe | backend/api/views.py:81-94 | 404 exactly for an unknown author, before the membership check; 400 with no change for an absent pair; otherwise exactly that pair is deleted |
| Database.Database.DownloadShoppingList | backend/api/views.py:132-150 | refused exactly when the user's cart is empty; otherwise the text of the grouped shopping list of the cart's recipes, under the inner join (see "## Left out") |

## Left out

- Authentication and password hashing: `Validation.ValidatePasswordChange` receives the hasher's verdict as a parameter. The djoser views and serializers are foreign code.
- Permissions:
  - the owner check of `IsOwnerOrReadOnly` is not modelled, because `backend/api/permissions.py` is not part of this model;
  - the `IsAuthenticated`/`IsAuthenticatedOrReadOnly` gates are not modelled; the write methods take an existing user id.
- An anonymous GET of the shopping list:
  - `download_file` has no permission of its own, and the viewset's `IsAuthenticatedOrReadOnly` lets a GET through;
  - reading `shopping_cart` on an anonymous user then raises, a server error that is not modelled;
  - `Database.Database.DownloadShoppingList` takes an authenticated user.
- Database.Database.Subscribe: models the evidently intended behaviour, not the code as written.
  - `SubscriptionSerializer` declares `model = User`.
  - It names `author` and `user` in its `UniqueTogetherValidator` without declaring those fields.
  - `perform_create` would save them onto a `User`.
  - So the create path as written cannot store a `Subscription`. The `UniqueTogetherValidator` looks the undeclared `author` and `user` fields up on the serializer. Depending on the REST framework version, that is a `KeyError` (a server error) or a 400 that reports both fields as required. The version is not part of this model, so no as-written member is given.
  - The model rejects an existing pair (as the validator would, under `non_field_errors`), then a self-subscription, then an unknown author, and stores the pair otherwise.
- Database.Database.UpdateRecipe: the project settings are not part of this model. If `ATOMIC_REQUESTS` were on, a name collision would also roll back the line and tag replacement, which the model keeps.
- Partial updates (PATCH): `validate` calls `len` on a missing name, so a PATCH without every field fails before any write. The model validates fully populated payloads only; `Database.Database.ApplyUpdate` still models the optional `tags`/`ingredients` branches of `update`.
- Field-level parsing by the serializer fields other than `tags` is not modelled:
  - `max_length` of the character fields (the constants module is not part of this model);
  - integer parsing;
  - Pillow's image check;
  - `PositiveIntegerField`/`PositiveSmallIntegerField` range checks in the database, including amounts above 32767.
- Database.Database.DownloadShoppingList: returns the corrected text, `ShoppingText`, built on the inner join. As written, `backend/api/views.py:143-150` is a LEFT OUTER JOIN, and a cart recipe without lines adds the line `None (None) — None` (see "## Findings"; `Aggregation.ShoppingTextAsWritten` is that text).
- Database.Database.CreateRecipe: relies on the ≥ 1 amount minimum as intended. `MinValueValidator` is used in `recipes/models.py` without being imported, which would stop the module from loading.
- The subscription feed (`get_recipes`, `recipes_count` and the `subscriptions` list action) is not modelled. It reads relations that do not exist under those names, and its intended output is not evident.
- Ordering of listings is not modelled:
  - users by `username`, tags by `name`, favorites by `-date_added`;
  - subscriptions by `subs_date`. A row is never saved again after its insert, so this order is insertion order, which the ledger keeps.
- Aggregation.ShoppingList: assumes Django 3.1 or later, where `Meta.ordering` is not applied to a grouped query. The project's settings and requirements are not part of this model.
  - Before 3.1, `ShoppingCart.Meta.ordering = ('id',)` would add the cart row's `id` to the GROUP BY. The list would then have one group per (cart row, name, unit), and the "one line per (name, unit)" contract of `Aggregation.ShoppingList` would not hold.
  - Group order is modelled as first appearance in cart order, then line order. The grouped query has no `order_by`, so the database's order is unspecified.
- Timestamps (`pub_date`, `date_added`, `subs_date`) are left out, because they are clock values.
- Adding and deleting tags and ingredients (admin and the CSV loader) are left out, and so is the cascade from a deleted ingredient to its lines: no modelled operation changes those tables.
- `filters.py`, the admin modules, `load_ingredients.py`, `mixins.py` and `urls.py` are left out: they are configuration and file I/O.
- Races between an existence check and the following insert are left out: every operation is sequential.
- HTTP response bodies are reduced to the error key and message, `Database.ResponseKey` and `Database.ResponseMessage`. The file name and content type of the download are not modelled.

## Findings

| source | as written | input that shows it | evidently intended | confidence | as-written member | corrected member |
|---|---|---|---|---|---|---|
| backend/api/views.py:143-150 | `values(...)` follows the reverse relation from a recipe to its lines with a LEFT OUTER JOIN, so a cart recipe without lines yields a group whose name, unit and sum are all `None`, and the text gets the line `None (None) — None` | a cart holding one recipe created with `ingredients: []`, which the validator accepts | only ingredients are listed, so a recipe without lines adds nothing | medium, not executed | Aggregation.LinelessRecipeListed | Aggregation.ShoppingListKeys |
