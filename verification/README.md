# Gallery admin and storefront rules, in Dafny

This project models the small decision and transformation rules of a portfolio
site with an admin panel and a product catalogue, and proves what they
guarantee. Every rule is a pure function over immutable datatypes. The
database, the blob store, `fetch`, the session provider and the DOM are inputs.

- **New-project form** (`NewProjectForm`): the slug derived from the title, the
  title handler, the thumbnail fallback and the JSON body posted on submit.
- **Projects API** (`ProjectsRoute`): `POST /api/projects` as an ordered guard
  chain over a store of taken slugs, the image rows it creates, and `GET` as a
  filter plus a sort by `order`.
- **Upload API** (`UploadRoute`): the guard chain of `POST /api/upload`. The
  checks are auth, file present, MIME prefix `image/`, and size at most 10 MiB.
- **Admin gating** (`Middleware`, `AuthConfig`): the middleware gate and the
  NextAuth `authorized` callback. They agree on every path whenever having a
  session and having a signed-in user coincide; a session without a user is
  where they part. No redirect loops. The `jwt` and `session` callbacks carry
  the role to the client.
- **Admin project table** (`ProjectList`): drag reordering with an optimistic
  update, an `{ id, order }` payload, rollback on failure, and confirmed deletion.
- **Image uploader** (`ImageUploader`): remove by position, and the
  all-or-nothing append of a dropped batch.
- **Accessibility hooks** (`Accessibility`): the keyboard-shortcut match and
  the focus-trap wrap rule.
- **Gallery card number** (`ArtworkCard`): `String(index + 1).padStart(2, "0")`.
- **Product catalogue** (`Products`): the constant catalogue and lookup by slug.

Supporting modules: `Optional` (`Option`), `Ascii` (ASCII case mapping and
character classes), `Http` (status plus payload or `{ error }`), `Media` (the
`{ url, alt? }` image record) and `Ordering` (insertion sort by an integer key).

`ProjectList.tsx` saves a new order with `PUT /api/projects`. But
`src/app/api/projects/route.ts` exports only `GET` and `POST`, so the
framework answers that request with a non-ok status. The model treats the save
result as an input, and `HandleDragEnd` shows the rollback that then follows.

## Model

| member | source | states |
|---|---|---|
| NewProjectForm.Collapse | src/app/admin/projects/new/page.tsx:29 | every maximal run outside `[a-z0-9]` becomes one dash: the output holds only `[a-z0-9-]` and never `--`, and a run already in progress never adds a dash |
| NewProjectForm.CollapseAppend | src/app/admin/projects/new/page.tsx:29 | the run replacement of a concatenation is that of the first part followed by that of the second, read in the state the first part ends in (inside a run or not) |
| NewProjectForm.CollapseRun | src/app/admin/projects/new/page.tsx:29 | a non-empty run of characters outside `[a-z0-9]` becomes exactly one dash, or nothing when a run is already in progress, and leaves the replacement inside a run |
| NewProjectForm.CollapseWord | src/app/admin/projects/new/page.tsx:29 | letters and digits pass through unchanged and end any run |
| NewProjectForm.CollapseKeepsAlnums | src/app/admin/projects/new/page.tsx:29 | collapsing keeps every letter and digit, in order, and adds none |
| NewProjectForm.Trim | src/app/admin/projects/new/page.tsx:30 | the input is the result with at most one dash at each end put back: a leading dash exactly when the input starts with one, a trailing dash exactly when a further dash ends it. The letters and digits are kept |
| NewProjectForm.Slugify | src/app/admin/projects/new/page.tsx:27-30 | the slug is well formed: only `[a-z0-9-]`, no `--`, no dash at either end. Its letters and digits are those of the lowercased title, in order |
| NewProjectForm.TrimMakesSlug | src/app/admin/projects/new/page.tsx:30 | trimming a string of slug characters without `--` leaves a well-formed slug |
| NewProjectForm.SlugJoinsWords | src/app/admin/projects/new/page.tsx:27-30 | two lower-case words separated by a non-empty run of non-alphanumeric characters, with optional such runs before and after, give the slug `word1-word2`: one dash between, none at the ends |
| NewProjectForm.SlugEmptyIff | src/app/admin/projects/new/page.tsx:27-30 | the slug is empty if and only if the title has no ASCII letter or digit |
| NewProjectForm.CollapseFixesSlugBody | src/app/admin/projects/new/page.tsx:29 | a string of slug characters without `--` passes the run replacement unchanged |
| NewProjectForm.SlugifyFixesSlugs | src/app/admin/projects/new/page.tsx:27-30 | every well-formed slug is its own slug |
| NewProjectForm.SlugifyIdempotent | src/app/admin/projects/new/page.tsx:27-30 | slugifying a produced slug returns it unchanged |
| NewProjectForm.SlugifyFixedPointIff | src/app/admin/projects/new/page.tsx:27-30 | the strings the slug rule leaves unchanged are exactly the well-formed slugs |
| NewProjectForm.HandleTitleChange | src/app/admin/projects/new/page.tsx:23-31 | the title is stored verbatim and the slug is `Slugify(title)`, a well-formed slug with the title's letters and digits. Category, year, description and thumbnail are unchanged |
| NewProjectForm.TitleGivesSlugIff | src/app/admin/projects/new/page.tsx:23-31 | after a title change the slug is non-empty if and only if the title contains an ASCII letter or digit |
| NewProjectForm.SubmittedThumbnail | src/app/admin/projects/new/page.tsx:41 | the explicit thumbnail if non-empty. Otherwise the first image's URL if there is one and it is non-empty. Otherwise `""` |
| NewProjectForm.ThumbnailPresentIff | src/app/admin/projects/new/page.tsx:41 | the submitted thumbnail is non-empty if and only if the explicit one is, or the first image has a URL |
| NewProjectForm.SubmitBody | src/app/admin/projects/new/page.tsx:43-50 | the posted body carries the form's title, slug, category, year and description, the resolved thumbnail and the image list |
| NewProjectForm.SubmitPassesRequiredFieldsIff | src/app/api/projects/route.ts:33-41 | a submitted form passes the server's required-field check if and only if title, slug, category, year and description are non-empty and some thumbnail is available |
| ProjectsRoute.AltOrEmpty | src/app/api/projects/route.ts:64 | a present non-empty alt is kept; otherwise the alt is `""` |
| ProjectsRoute.ImageRows | src/app/api/projects/route.ts:60-68 | one row per given image, none when the list is absent: row i has the i-th URL, its alt or `""`, and order i |
| ProjectsRoute.ImageRowsOrdered | src/app/api/projects/route.ts:60-68 | the created rows have strictly increasing orders, so they are already sorted as `GET` lists them, and keep the given URLs |
| ProjectsRoute.Post | src/app/api/projects/route.ts:25-80 | 401 exactly without a session. 500 exactly for an unparsable body. 400 "Missing required fields" exactly when a field is falsy. 400 "Slug already exists" exactly when the slug is taken. 201 otherwise, with a row holding the body's title, slug, category, year, thumbnail and description and the image rows. The lookup runs only after auth and fields pass. The store gains exactly the new slug on 201 and is unchanged otherwise |
| ProjectsRoute.PostTwiceRefusesDuplicate | src/app/api/projects/route.ts:43-52 | repeating a successful creation is refused as a duplicate and leaves the store as the first call left it |
| ProjectsRoute.WithSortedImages | src/app/api/projects/route.ts:10 | a project's images come back ascending by order, as a permutation of its images, with the project's other fields kept |
| ProjectsRoute.PublishedView | src/app/api/projects/route.ts:9-10 | a project appears if and only if it is stored and published; the view is no longer than the store; every listed project's images are sorted |
| ProjectsRoute.PublishedViewAppend | src/app/api/projects/route.ts:8-12 | the view of two stores joined is the view of the first followed by that of the second, so each stored row contributes at most its own entry and none appears twice |
| Ordering.SortBy | src/app/api/projects/route.ts:11 | the result is ascending by the key and is a permutation of the input |
| ProjectsRoute.Get | src/app/api/projects/route.ts:6-14 | status 200 with exactly the published projects, each once (the multiset of the row-by-row view, no longer than the store), ascending by `order`, each with its images ascending by `order` |
| UploadRoute.Upload | src/app/api/upload/route.ts:6-52 | 401 exactly without a session. "No file provided", "Only image files are allowed" and "File size must be less than 10MB" each exactly when the earlier checks pass and this one fails. `put` is called if and only if every check passes. 200 carries the stored blob's URL and pathname. 500 for an unreadable form or a failed `put` |
| UploadRoute.SizeBoundary | src/app/api/upload/route.ts:29-34 | a file of exactly 10485760 bytes is uploaded; one byte more is refused with 400 |
| UploadRoute.UnauthorizedIgnoresRequest | src/app/api/upload/route.ts:8-11 | without a session the reply does not depend on the form or the blob store |
| AuthConfig.Authorized | src/lib/auth.config.ts:9-28 | the login page redirects to `/admin` if and only if a user is signed in, and is allowed otherwise. Other `/admin` paths are denied if and only if no user is signed in, and allowed if and only if one is. Non-admin paths are always allowed |
| AuthConfig.Jwt | src/lib/auth.config.ts:29-34 | with a user, the token takes the user's role and keeps its other claims; without one the token is unchanged |
| AuthConfig.SessionCallback | src/lib/auth.config.ts:35-40 | when the session has a user, its role becomes the token's role and nothing else changes; otherwise the session is unchanged |
| AuthConfig.RoleReachesSession | src/lib/auth.config.ts:29-40 | the role of the user who signed in reaches the client session after any number of token refreshes |
| AuthConfig.SessionCallbackIdempotent | src/lib/auth.config.ts:35-40 | applying the session callback twice with the same token equals applying it once |
| Middleware.Gate | src/middleware.ts:4-33 | `/api` paths pass. The login page redirects to `/admin` if and only if logged in. Other `/admin` paths redirect to the login page if and only if logged out, and pass if and only if logged in. Every other path passes. Redirects go only to `/admin` or the login page |
| Middleware.NoRedirectLoop | src/middleware.ts:19-32 | following any redirect once reaches a path the same user is let through |
| Middleware.Enforce | src/lib/auth.config.ts:6-8 | a request passes exactly when `authorized` allowed it; a denial is sent to the sign-in page; a redirect answer is followed to its own location |
| Middleware.GateAgreesWithAuthorized | src/lib/auth.config.ts:9-28 | when "has a session" and "has a user" coincide, enforcing `authorized` gives the middleware's decision on every path |
| Middleware.UserlessSessionDisagrees | src/middleware.ts:5-23 | a session object without a user is sent from the login page to `/admin` by the middleware, but allowed there by `authorized` |
| ProjectList.FindIndex | src/components/admin/ProjectList.tsx:140-141 | the first position holding the id, or -1 exactly when no row has it |
| ProjectList.ArrayMove | src/components/admin/ProjectList.tsx:143 | the moved item lands at the target index. Items between the two indices shift by one toward the vacated slot. All other items stay put |
| ProjectList.ArrayMovePermutes | src/components/admin/ProjectList.tsx:143 | a move is a permutation |
| ProjectList.ArrayMoveInverse | src/components/admin/ProjectList.tsx:143 | moving back from the target to the source index restores the list |
| ProjectList.Orders | src/components/admin/ProjectList.tsx:147-150 | the payload pairs the i-th project's id with order i |
| ProjectList.HandleDragEnd | src/components/admin/ProjectList.tsx:136-167 | no drop target, or a drop on itself, changes nothing and sends nothing. Otherwise the shown list is `ArrayMove` of the rows from the dragged row's index to the target's: the dragged row lands at the target's former index and the rows between shift by one, and the payload numbers it 0..n-1. The list stays after a successful save and reverts to the pre-drag order after a rejected or thrown save |
| ProjectList.DragMovesTheRow | src/components/admin/ProjectList.tsx:139-144 | a drop onto another row puts the dragged row at the target's index, so the shown list differs from the old one |
| ProjectList.WithoutId | src/components/admin/ProjectList.tsx:183 | a project survives if and only if it was listed and its id differs from the deleted one |
| ProjectList.WithoutIdAppend | src/components/admin/ProjectList.tsx:183 | deletion distributes over concatenation, so survivors keep their relative order |
| ProjectList.WithoutAbsentId | src/components/admin/ProjectList.tsx:183 | deleting an id that no row has leaves the list unchanged |
| ProjectList.WithoutIdIdempotent | src/components/admin/ProjectList.tsx:183 | deleting the same id twice is deleting it once |
| ProjectList.ConfirmDelete | src/components/admin/ProjectList.tsx:173-193 | with no pending delete nothing changes. A successful delete leaves `WithoutId` of the list, that is exactly the rows with another id, and closes the modal. A failed or thrown delete leaves list and modal unchanged |
| ImageUploader.RemoveImage | src/components/admin/ImageUploader.tsx:56-59 | an in-range index drops exactly that image: earlier images are kept and later ones shift down by one. An out-of-range index changes nothing |
| ImageUploader.RemoveThenReinsert | src/components/admin/ImageUploader.tsx:56-58 | removal shortens the list by one, and putting the removed image back at its index restores the list |
| ImageUploader.NewImages | src/components/admin/ImageUploader.tsx:19-36 | a batch yields images if and only if every upload succeeded. Then image i has the server's URL and the i-th file name as alt |
| ImageUploader.OnDrop | src/components/admin/ImageUploader.tsx:15-46 | the alert is shown if and only if some upload failed, and then the list is unchanged. Otherwise the list is the old images followed by the new ones, in drop order |
| ImageUploader.DropsCompose | src/components/admin/ImageUploader.tsx:36-37 | two successful drops in a row equal one drop of both batches |
| Accessibility.ShortcutFires | src/hooks/useAccessibility.ts:71-79 | a firing shortcut has a key equal to the registered one up to case, matching Shift and Alt, has Ctrl or Meta down when Ctrl is requested, and has Ctrl up otherwise |
| Accessibility.ExactComboFires | src/hooks/useAccessibility.ts:71-79 | pressing the registered key with exactly the requested modifiers and Meta up runs the callback |
| Accessibility.OptionsDeterminedWithoutMeta | src/hooks/useAccessibility.ts:72-76 | when Meta is up, a key combination fires the shortcuts of at most one set of options |
| Accessibility.MetaFiresPlainAndCtrl | src/hooks/useAccessibility.ts:72 | Meta with a key fires both that key's plain shortcut and its Ctrl shortcut |
| Accessibility.ShortcutIgnoresCase | src/hooks/useAccessibility.ts:76 | changing the case of the registered key or of the pressed key does not change whether the shortcut fires |
| Accessibility.MetaActsAsCtrl | src/hooks/useAccessibility.ts:72 | with Ctrl requested, Meta alone is as good as Ctrl; without it, Meta is ignored |
| Accessibility.TrapKeyDown | src/hooks/useAccessibility.ts:13-40 | an inactive trap, a missing container, or a key other than Tab does nothing. Otherwise focus moves exactly when Shift+Tab is pressed on the first element (to the last) or Tab on the last (to the first), and any move targets an element of the container |
| Accessibility.TrapMakesTabCyclic | src/hooks/useAccessibility.ts:27-35 | with the trap active, Tab from element i reaches element (i+1) mod n and Shift+Tab reaches (i-1) mod n, so focus never leaves the container |
| Accessibility.TrapWrapRoundTrip | src/hooks/useAccessibility.ts:27-34 | Tab from the last element then Shift+Tab returns to the last element |
| ArtworkCard.Decimal | src/components/gallery/ArtworkCard.tsx:34 | the decimal text of n has at least one digit, exactly one when n < 10, and no leading zero otherwise |
| ArtworkCard.ParseDecimalRoundTrip | src/components/gallery/ArtworkCard.tsx:34 | reading the decimal text of n gives n |
| ArtworkCard.ParseLeadingZero | src/components/gallery/ArtworkCard.tsx:34 | a padding zero does not change the value read |
| ArtworkCard.PadStart | src/components/gallery/ArtworkCard.tsx:34 | the result has the target width, or the original if longer. It ends with the original and is zeros before it |
| ArtworkCard.FormattedIndex | src/components/gallery/ArtworkCard.tsx:34 | at least two digits. For index 0..8 it is "0" followed by the digit index+1. From index 9 on it is the plain decimal of index+1 |
| ArtworkCard.FormattedIndexValue | src/components/gallery/ArtworkCard.tsx:34 | the card number reads as index+1 |
| ArtworkCard.FormattedIndexInjective | src/components/gallery/ArtworkCard.tsx:34 | different cards get different numbers |
| Products.FindBySlug | lib/products.ts:57-59 | a found entry has the slug and is the first such entry in catalogue order. Nothing is found if and only if no entry has the slug |
| Products.FindEveryEntry | lib/products.ts:57-59 | when slugs are distinct, each entry is found by its own slug |
| Products.CatalogueWellFormed | lib/products.ts:15-55 | catalogue slugs are pairwise distinct and every price is positive |
| Products.GetProductBySlug | lib/products.ts:57-59 | a found product has the slug and is in the catalogue. Nothing is found if and only if no entry has the slug |
| Products.AllProducts | lib/products.ts:61-63 | the catalogue itself: all eight entries, in catalogue order. Each is found by its own slug and has a positive price |

## Left out

- Lower-casing is modelled on ASCII only. JavaScript's Unicode `toLowerCase` can turn some non-ASCII characters into ASCII letters (the Kelvin sign becomes `k`). Such titles are outside the slug model.
- `parseInt(year)` is not modelled. The created project keeps the year text.
- Database exceptions are not modelled. This covers the `findMany`, `findUnique` and `create` failures that the `GET` and `POST` handlers answer with 500. The `POST` 500 for an unparsable JSON body is modelled.
- Upload: a `file` form entry that is a string rather than a file is only partly modelled. An empty string is falsy, so it gets 400 "No file provided" like a missing entry, and the model treats it as one. A non-empty string has no `type`, so the MIME check at src/app/api/upload/route.ts:21 throws and the handler answers 500; that case is not modelled.
- The blob store's `put` is an input (its result for the file). Its naming and access options are not modelled.
- Redirect targets are modelled by pathname only. NextAuth's `callbackUrl` query on a denied request is not modelled. Neither is the absolute URL built from `req.url`.
- The middleware's `matcher` (`/admin/:path*`) is not modelled. It keeps the gate from running on other paths, so its `/api` branch is unreachable in practice. The gate is modelled as a function of every path.
- ProjectList.HandleDragEnd: requires both ids to be rows of the table. dnd-kit reports only ids of the sortable rows, so `findIndex` never returns -1 there. `arrayMove` with -1 is not modelled.
- The `alert` messages, the `isDeleting`, `uploading` and `isSubmitting` flags, and the router navigation after a successful submit are UI effects and are not modelled.
- ImageUploader.NewImages: a response that is ok but whose JSON body cannot be read also rejects the batch. The model folds it into a failed upload. The concurrency of `Promise.all` is not modelled beyond its order-preserving, all-or-nothing result.
- The browser's own Tab handling is modelled as moving to the next or previous focusable element of the container in document order, and out of the container past either end. Positive `tabindex` ordering is not modelled.
- `useFocusTrap`'s listener registration and the initial focus on activation are not modelled, because they are DOM plumbing. `useAnnounce` is not modelled either, because it is a timer plus a DOM write.
- `formatPrice` is not modelled, because it delegates to `Intl.NumberFormat`. Product prices are whole numbers in the catalogue and are modelled as integers.
- The 3D product ring (components/ProductList3D.tsx) is not modelled, because it uses floating-point trigonometry and the library's `OrbitControls`. The camera orbits the ring through the library's `OrbitControls` (auto-rotation, pointer drag, wheel zoom between distances 3 and 12). The file has no angular controller of its own, only a hover scale animation on each card.
- Database, blob and sign-in plumbing (Prisma client, seed script, admin pages, login page, layouts) and the animation and presentational components are not modelled.
