# Blog application: a Dafny model of its core logic

This project models the core rules of a small blog application. On the server:
- an Express API whose admin routes create, list, read, update and delete blogs in a MongoDB collection;
- `register` and `login` routes over a user collection.

On the client, a React app holds:
- the blogs in a Redux slice;
- a home page that picks featured articles;
- an admin dashboard with a search box, a sortable table and a blog form with a tag editor;
- a navigation bar that only admins see the dashboard link in.

What is modelled, and how:
- **The stored collections** are in-memory. Blogs are a `map` from `_id` to document in the class `BlogController.BlogCollection`. Users are a `seq` in the class `AuthController.UserCollection`, so `findOne` is the first match.
- **Each route handler** is a method that runs the handler's checks in order.
  - Every check comes before the write, so an error leaves the collection unchanged.
  - Each method is tied to a pure function of the old collection: `CreateResult`, `UpdateResult`, `DeleteResult`, `RegisterResult`, `LoginResult`.
  - The collection invariants are preserved lemmas. For blogs: non-empty titles are unique, and every title is trimmed. For users: emails are unique.
- **Mongoose schemas and zod schemas** are functions that return either the built record or the list of failures. These are `BlogModel.NewBlog`, `UserModel.NewUser`, `BlogSchema.Parse`, `AuthSchema.ParseRegister` and `AuthSchema.ParseLogin`. Each states exactly when it fails and which defaults it fills in.
- **The Redux slice** is the class `BlogSlice.BlogState`. Each case reducer is a method stating the whole new state.
- **The page components** keep state in `useState`, so their handlers are methods of small classes: `AdminDashboard.Dashboard`, `BlogsTable.TableState`, `BlogFormComponent.TagEditor`.
- **The pure list logic** is a set of functions with lemmas: featured selection, bookmark toggle, search, sort, truncation and nav filtering.

These become parameters of the model:
- bcrypt and `jwt.sign`, as the record of functions `AuthController.Crypto`. The only property assumed is that a password matches its own hash (`Sound`).
- The deployment environment (`Env`).
- The generated `_id` of a new blog.
- The requesting user.
- The date of today.
- zod's `.email()` check.
- The `isAdmin` flag.

## Model

| member | source | states |
|---|---|---|
| BlogSlice.FindIndex | client/src/features/blog/blog.slice.ts:149-151 | `findIndex` by `_id`. Returns -1 exactly when no blog has the id; otherwise the first index that has it. |
| BlogSlice.FindById | client/src/features/blog/blog.slice.ts:40 | `find` by `_id`. Returns None exactly when no blog has the id; otherwise the first blog with it. |
| BlogSlice.ReplaceById | client/src/features/blog/blog.slice.ts:116-120 | Same length. Every blog with the payload's id becomes the payload; every other blog is unchanged. |
| BlogSlice.RemoveById | client/src/features/blog/blog.slice.ts:121-123 | No blog with the id is left. Every other blog is kept, as many times as before and in order (a subsequence). |
| BlogSlice.Upsert | client/src/features/blog/blog.slice.ts:149-156 | The payload ends up in the list. If its id is present, only the first blog with that id is replaced and the length is unchanged; otherwise the payload is appended. |
| BlogSlice.ReplaceByIdWithoutMatch | client/src/features/blog/blog.slice.ts:116-120 | With no matching id the list is unchanged. |
| BlogSlice.RemoveByIdIdempotent | client/src/features/blog/blog.slice.ts:201-204 | Removing the same id twice is removing it once. |
| BlogSlice.RemoveByIdWithoutMatch | client/src/features/blog/blog.slice.ts:121-123 | Removing an absent id changes nothing. |
| BlogSlice.UpsertOfCachedBlog | client/src/features/blog/blog.slice.ts:39-44 | A blog served from the cache and fed back through `fulfilled` leaves the list as it was. |
| BlogSlice.UpsertIsReplaceWhenDistinct | client/src/features/blog/blog.slice.ts:145-157 | With distinct ids and the id present, the `fetchBlogById` upsert equals the `updateBlog` replacement. |
| BlogSlice.UpsertKeepsDistinctIds | client/src/features/blog/blog.slice.ts:152-156 | The upsert keeps ids distinct. |
| BlogSlice.BlogState.constructor | client/src/features/blog/blog.slice.ts:13-18 | No blogs, not loading, no error, no current blog. |
| BlogSlice.BlogState.SetCurrentBlog | client/src/features/blog/blog.slice.ts:107-109 | Sets only `currentBlog`. |
| BlogSlice.BlogState.ClearError | client/src/features/blog/blog.slice.ts:110-112 | Clears only `error`. |
| BlogSlice.BlogState.AddBlogOptimistic | client/src/features/blog/blog.slice.ts:113-115 | Appends the payload; nothing else changes. |
| BlogSlice.BlogState.UpdateBlogOptimistic | client/src/features/blog/blog.slice.ts:116-120 | The list becomes `ReplaceById` of the old list; nothing else changes. |
| BlogSlice.BlogState.RemoveBlogOptimistic | client/src/features/blog/blog.slice.ts:121-123 | The list becomes `RemoveById` of the old list; nothing else changes. |
| BlogSlice.BlogState.Pending | client/src/features/blog/blog.slice.ts:128-131 | Every thunk's pending case sets `loading`, clears `error`, and keeps the list and the current blog. |
| BlogSlice.BlogState.Rejected | client/src/features/blog/blog.slice.ts:158-162 | Every rejected case clears `loading` and stores the payload as `error`. Only `fetchBlogById` also clears the current blog; the list is kept. |
| BlogSlice.BlogState.FetchBlogsFulfilled | client/src/features/blog/blog.slice.ts:132-135 | The list becomes the payload and `loading` is cleared. |
| BlogSlice.BlogState.FetchBlogByIdFulfilled | client/src/features/blog/blog.slice.ts:145-157 | The current blog is the payload and the list is `Upsert` of the old list. |
| BlogSlice.BlogState.CreateBlogFulfilled | client/src/features/blog/blog.slice.ts:169-173 | Appends the payload and clears the current blog. |
| BlogSlice.BlogState.UpdateBlogFulfilled | client/src/features/blog/blog.slice.ts:184-190 | Replaces the payload by id and clears the current blog. |
| BlogSlice.BlogState.DeleteBlogFulfilled | client/src/features/blog/blog.slice.ts:201-204 | Removes the id and keeps the current blog. |
| BlogSlice.BlogState.CachedBlog | client/src/features/blog/blog.slice.ts:39-44 | Finds the cached blog exactly when one has the requested id; it is in the list and carries that id. |
| BlogSlice.BlogState.DispatchFetchBlogById | client/src/features/blog/blog.slice.ts:35-48 | Served from the cache exactly when the id is in the list. The list never changes. On a hit the current blog is the cached blog; on a miss the state is the pending one. |
| BlogController.CreateResult | server/src/api/v1/controllers/admin/blog.controller.ts:18-60 | A conflict exactly when a stored title equals the trimmed body title. Validation errors exactly when the document fails the schema; a duplicate key exactly when the `_id` is taken. Success exactly when none of these holds: the title is free, the document is valid and the `_id` is fresh. On success: status 201, the stored fields, the trimmed non-empty title, `createdBy` set to the user and no `updatedBy`. |
| BlogController.UpdateResult | server/src/api/v1/controllers/admin/blog.controller.ts:108-155 | Not found exactly when the id is absent. A conflict exactly when the title is non-empty, differs from the stored one, and another blog holds it. Success exactly when the id is present and that title check passes, with status 200 and the updated document: the body's fields with the title trimmed, `updatedBy` set to the user, and `createdBy` and `createdAt` kept (`createdAt` is immutable under `timestamps`). |
| BlogController.Updated | server/src/api/v1/controllers/admin/blog.controller.ts:137-143 | The document an update writes: the title is the trimmed body title, and content, author, read time, tags, the featured flag and the counters come from the body. `authorAvatar` is replaced only when the body has one. `createdAt` and `createdBy` stay as stored, and `updatedBy` becomes the user. |
| BlogController.DeleteResult | server/src/api/v1/controllers/admin/blog.controller.ts:157-179 | Not found exactly when the id is absent; otherwise status 200 with `{success: true, message, deletedId}`. |
| BlogController.WriteKeepsValid | server/src/api/v1/controllers/admin/blog.controller.ts:23-38 | Writing a document with a trimmed title that is free, when non-empty, keeps titles unique and trimmed. |
| BlogController.CreatePreservesValid | server/src/api/v1/controllers/admin/blog.controller.ts:23-38 | A create that passes the title check and validation keeps the collection valid. |
| BlogController.OwnTitleNotTaken | server/src/api/v1/controllers/admin/blog.controller.ts:120 | With unique titles, no other blog holds a blog's own non-empty title. |
| BlogController.UpdateTitleFree | server/src/api/v1/controllers/admin/blog.controller.ts:120-135 | The title an update writes is trimmed and, when non-empty, no other blog holds it. This holds both when the check ran and when it was skipped because the title was unchanged. |
| BlogController.UpdatePreservesValid | server/src/api/v1/controllers/admin/blog.controller.ts:120-147 | Every successful update keeps titles unique and trimmed. |
| BlogController.DeletePreservesValid | server/src/api/v1/controllers/admin/blog.controller.ts:162 | Deleting keeps the collection valid. |
| BlogController.CreateTwiceConflicts | server/src/api/v1/controllers/admin/blog.controller.ts:23-31 | After a successful create, the same body conflicts, whatever the `_id` and the user. |
| BlogController.PaddedTitleConflicts | server/src/api/v1/controllers/admin/blog.controller.ts:23-31 | A title that differs from a stored one only in surrounding white space conflicts too. |
| BlogController.Ids | server/src/api/v1/controllers/admin/blog.controller.ts:71-74 | The ids of a listing: one id per listed blog. |
| BlogController.InsertNewest | server/src/api/v1/controllers/admin/blog.controller.ts:67 | Inserting into the listing adds exactly that blog (multiset). |
| BlogController.InsertNewestIds | server/src/api/v1/controllers/admin/blog.controller.ts:65-74 | Inserting adds exactly the blog's id to the listing's ids. |
| BlogController.InsertNewestSorted | server/src/api/v1/controllers/admin/blog.controller.ts:67 | Inserting keeps the listing newest first. |
| BlogController.ListedOnce | server/src/api/v1/controllers/admin/blog.controller.ts:65-74 | A listing whose ids form, as a multiset, a set of keys lists each key once. |
| BlogController.ListingStep | server/src/api/v1/controllers/admin/blog.controller.ts:65-74 | Listing one more key keeps the loop invariant: the keys done are listed, each with its stored document, newest first. |
| BlogController.BlogCollection.constructor | server/src/models/blog.model.ts:22 | The `Blog` collection starts empty, and so valid. |
| BlogController.BlogCollection.CreateBlog | server/src/api/v1/controllers/admin/blog.controller.ts:18-60 | The answer is `CreateResult`. Success stores exactly the new document under its `_id`; errors store nothing. Keeps the collection valid. |
| BlogController.BlogCollection.GetAllBlogs | server/src/api/v1/controllers/admin/blog.controller.ts:62-82 | Status 200. Every stored blog appears exactly once, with its stored document, newest `createdAt` first. |
| BlogController.BlogCollection.GetBlogById | server/src/api/v1/controllers/admin/blog.controller.ts:84-106 | Not found exactly when the id is absent; otherwise the stored blog with its `_id`. |
| BlogController.BlogCollection.UpdateBlog | server/src/api/v1/controllers/admin/blog.controller.ts:108-155 | The answer is `UpdateResult`. Success rewrites only the target document; errors write nothing. Keeps the collection valid. |
| BlogController.BlogCollection.DeleteBlog | server/src/api/v1/controllers/admin/blog.controller.ts:157-179 | The answer is `DeleteResult`. Removes exactly that id. Keeps the collection valid. |
| BlogModel.TrimmedTitle | server/src/models/blog.model.ts:6 | The title path's `trim`: present exactly when given, and then trimmed. |
| BlogModel.FailedRequired | server/src/models/blog.model.ts:6-11 | Empty exactly when every required check passed. Names the title and the content exactly when they failed; never names `tags`. |
| BlogModel.MissingPaths | server/src/models/blog.model.ts:6-12 | Empty exactly when the trimmed title, content, author, createdAt and readTime are present and non-empty. Names the title exactly when it is blank; `tags` is never missing. |
| BlogModel.NewBlog | server/src/models/blog.model.ts:4-20 | Built exactly when nothing required is missing; otherwise fails with the missing paths. The built document has the trimmed title and the given fields. Defaults: `featured` false, `likes`/`bookmarks` 0, `tags` []. `createdBy` is as given and there is no `updatedBy`. |
| BlogModel.NewBlogTitleTrimmed | server/src/models/blog.model.ts:6 | A stored title is non-empty, has no surrounding white space, and trimming it again changes nothing. |
| BlogModel.BlankTitleRejected | server/src/models/blog.model.ts:6 | A white-space-only title is rejected on `title`, though it is present. |
| BlogModel.DefaultsApplied | server/src/models/blog.model.ts:13-15 | With the optional paths absent, the document gets `featured` false, `likes`/`bookmarks` 0 and `tags` []. |
| BlogSchema.MinLengthIssues | server/src/schema/admin/blogSchema.ts:6-7 | No issue exactly when the field is present and meets its minimum. Every issue is on that field. |
| BlogSchema.TitleIssues | server/src/schema/admin/blogSchema.ts:5 | No issue exactly when the title is 5 to 100 characters long. |
| BlogSchema.DateIssues | server/src/schema/admin/blogSchema.ts:9-11 | No issue exactly when `createdAt` is 4 digits, '-', 2 digits, '-', 2 digits. Month and day ranges are not checked. |
| BlogSchema.TagIssues | server/src/schema/admin/blogSchema.ts:13 | No issue exactly when there is at least one tag and every tag has at least 2 characters. |
| BlogSchema.ShortTagIssues | server/src/schema/admin/blogSchema.ts:13 | No issue exactly when every tag has at least 2 characters. |
| BlogSchema.CountIssues | server/src/schema/admin/blogSchema.ts:15-16 | No issue exactly when the count is absent or non-negative. |
| BlogSchema.HasIssueAtConcat | server/src/schema/admin/blogSchema.ts:3-17 | The issues of the whole object are on a path exactly when some field's issues are. |
| BlogSchema.HasIssueAtUniform | server/src/schema/admin/blogSchema.ts:3-17 | A field's issues are on that field's path only. |
| BlogSchema.IssuesAt | server/src/schema/admin/blogSchema.ts:3-17 | A field has an issue exactly when its own constraint fails. No other path ever has one. |
| BlogSchema.NoIssuesIffFormOk | server/src/schema/admin/blogSchema.ts:3-17 | No issue at all exactly when every field's constraint holds. |
| BlogSchema.Parse | server/src/schema/admin/blogSchema.ts:3-17 | Succeeds exactly when every constraint holds; otherwise returns every issue (at least one). On success: the given fields, `featured` defaulting to false, `likes`/`bookmarks` to 0, and `_id`/`authorAvatar` passed through. |
| BlogSchema.IssuesPerField | server/src/schema/admin/blogSchema.ts:4-13 | The title, tags and createdAt are reported exactly when their own constraint fails. `_id` and `authorAvatar` are never reported. |
| AuthController.GenerateToken | server/src/api/v1/controllers/auth.controller.ts:10-11 | The token is the signature of the user's id and role, with an expiry of 604800 seconds (7 days). |
| AuthController.TokenCookie | server/src/api/v1/controllers/auth.controller.ts:77-84 | `secure` exactly in production, and `sameSite` none exactly in production. The domain is the configured one in production and none elsewhere. Not httpOnly, path "/", 7 days. |
| AuthController.CrossSiteCookieIsSecure | server/src/api/v1/controllers/auth.controller.ts:77-84 | A cross-site cookie is always secure. The max age is 604800000 ms. Outside production: lax, with no domain. |
| AuthController.FindByEmail | server/src/api/v1/controllers/auth.controller.ts:21 | `findOne({ email })`: the first user with that email, or none when no user has it. |
| AuthController.FindAppended | server/src/api/v1/controllers/auth.controller.ts:62 | A lookup that failed before finds the user appended after it. |
| AuthController.RegisterResult | server/src/api/v1/controllers/auth.controller.ts:16-51 | A conflict exactly when the email is registered. Success exactly when it is free and the new user passes the schema; otherwise a validation error with the failing paths. On success: status 201 and a user with role USER and the hashed password. The email is stored as given, only when non-empty. The response has the id, name, role and email, and no password. |
| AuthController.NewRegisteredUser | server/src/api/v1/controllers/auth.controller.ts:29-35 | Built exactly when the user model's validators pass on the name, the hashed password, role "USER" and the email when non-empty. The user then has that id, name and email, the hash and never the plain password, role USER, not verified, not a guest and version 0. |
| AuthController.AppendKeepsEmailsUnique | server/src/api/v1/controllers/auth.controller.ts:21-37 | Saving a user with an email no one has keeps emails unique. |
| AuthController.LoginAs | server/src/api/v1/controllers/auth.controller.ts:66-92 | For a found user, success exactly when a password is stored and `compare` accepts the given one. Otherwise `IllegalArguments` when none is stored (bcrypt throws) and "Invalid credentials" when it does not match. On success: status 200, the user's token, the cookie options, and the user object with its `_id` and no `password` or `__v`. |
| AuthController.LoginResult | server/src/api/v1/controllers/auth.controller.ts:53-99 | A blank email or password answers "Email and password are required". The lookup uses the lowercased email, and an unknown email answers "Invalid credentials", as does a wrong password. A found user with no password is `IllegalArguments`. A found user whose password matches logs in, and only then: with a 7-day token for the user's id and role, the cookie options, and the user object with its `_id` and no `password` or `__v`. |
| AuthController.LoginHidesWhichCheckFailed | server/src/api/v1/controllers/auth.controller.ts:66-73 | An unknown email and a wrong password give the identical answer. |
| AuthController.MixedCaseEmailCannotLogIn | server/src/api/v1/controllers/auth.controller.ts:21-62 | As written: after registering with an email that has an upper-case letter, login with the same email and password fails. |
| AuthController.AliceCannotLogIn | server/src/api/v1/controllers/auth.controller.ts:21-62 | A concrete case of the above: "Alice@example.com". |
| AuthController.RegisterNormalizedResult | server/src/api/v1/controllers/auth.controller.ts:16-51 | Register with the email lowercased. A conflict exactly when the lowercased email is registered. Success exactly when it is free and the new user passes the schema; otherwise a validation error with the failing paths. On success the email is stored lowercased. |
| AuthController.RegisterThenLogIn | server/src/api/v1/controllers/auth.controller.ts:53-99 | After the corrected register, login with the same email and password succeeds. The token is for the new id and role USER, and there is no password in the user object. |
| AuthController.UserCollection.constructor | server/src/models/user.model.ts:62 | The `User` collection starts empty, and so with unique emails. |
| AuthController.UserCollection.Register | server/src/api/v1/controllers/auth.controller.ts:16-51 | The answer is `RegisterResult`. Success appends exactly the new user; errors save nothing. Keeps emails unique. |
| AuthController.UserCollection.RegisterNormalized | server/src/api/v1/controllers/auth.controller.ts:16-51 | The corrected register: the answer is `RegisterNormalizedResult`, and it has the same effects. |
| AuthController.UserCollection.Login | server/src/api/v1/controllers/auth.controller.ts:53-99 | The answer is `LoginResult`, and the collection is only read. |
| UserModel.ParseRole | server/src/models/user.model.ts:21-25 | Accepts exactly the role names. |
| UserModel.EmailValidToPattern | server/src/models/user.model.ts:11 | The validator described in words implies a match of the regular expression. |
| UserModel.PatternToEmailValid | server/src/models/user.model.ts:11 | A match of the regular expression meets the description in words. |
| UserModel.EmailValidMatchesPattern | server/src/models/user.model.ts:11 | An email is valid exactly when it has no white space, exactly one '@' with something before it, and a '.' strictly inside the domain. |
| UserModel.UserIssues | server/src/models/user.model.ts:8-29 | An email fails exactly when present and invalid; a password exactly when present and shorter than 8; a role exactly when present and unknown; a name exactly when present and shorter than 3. |
| UserModel.NewUser | server/src/models/user.model.ts:6-58 | Built exactly when no validator fails. The built user has the given fields, role USER by default, is not verified, is not a guest, and has version 0. |
| UserModel.ToObject | server/src/models/user.model.ts:15-19 | The password is in the object exactly when it was selected and set. `_id`, `role`, `__v` and the flags are always there. |
| UserModel.WithoutSecrets | server/src/models/user.model.ts:50-56 | Drops `password` and `__v` and keeps every other key with its value. |
| UserModel.DocObject.Delete | server/src/api/v1/controllers/auth.controller.ts:87-88 | `delete obj[key]` removes exactly that key. |
| UserModel.DocObject.ToJSON | server/src/models/user.model.ts:50-56 | The transform leaves exactly `WithoutSecrets` of the object, in place, and returns it. |
| UserModel.JsonHidesPassword | server/src/models/user.model.ts:50-56 | Whatever was selected, the JSON form has no password and no version, but keeps `_id` and `role`. |
| AuthSchema.NameIssues | client/src/schema/authSchema.ts:5-8 | No issue exactly when the name is 3 to 50 characters long. |
| AuthSchema.EmailIssues | client/src/schema/authSchema.ts:9 | No issue exactly when the email is present and passes the email check. |
| AuthSchema.PasswordRule | client/src/schema/authSchema.ts:10-19 | One rule: no issue exactly when it holds, and otherwise its own message. |
| AuthSchema.PasswordIssues | client/src/schema/authSchema.ts:10-19 | No issue exactly when the password has at least 8 characters and an upper-case letter, a lower-case letter, a digit and a special character. Missing a special character gives that rule's own message. |
| AuthSchema.ConfirmIssues | client/src/schema/authSchema.ts:20 | No issue exactly when the confirmation is present. |
| AuthSchema.RegisterIssues | client/src/schema/authSchema.ts:3-26 | zod's issue order for the register form: the field issues first, then the unrecognised-keys issue on the object exactly when a key is not declared, then the mismatch issue on `confirmPassword` exactly when every key is present and the passwords differ. After the object issue only the mismatch can follow. |
| AuthSchema.RegisterIssuesEmpty | client/src/schema/authSchema.ts:3-26 | No issue exactly when the form has the four declared keys and no other key, the name has 3 to 50 characters, the email check passes, the password is strong and the confirmation matches. |
| AuthSchema.ParseRegister | client/src/schema/authSchema.ts:3-26 | Succeeds exactly when the keys are exactly the four declared ones and every rule holds. On failure returns every issue of the form, at least one. |
| AuthSchema.MismatchReportedOnConfirm | client/src/schema/authSchema.ts:23-26 | Whenever all fields are there and the confirmation differs, the mismatch is reported on `confirmPassword` and the parse fails. |
| AuthSchema.MissingKeySkipsRefine | client/src/schema/authSchema.ts:10-26 | Without a password the refinement does not run: no mismatch issue, only "Required". |
| AuthSchema.UnknownKeyRejected | client/src/schema/authSchema.ts:22 | An undeclared key is reported on the object and the parse fails. |
| AuthSchema.LoginIssues | client/src/schema/authSchema.ts:28-31 | No issue exactly when the email passes the email check and the password is non-empty. |
| AuthSchema.ParseLogin | client/src/schema/authSchema.ts:28-31 | Succeeds exactly when the email and password are valid, and then returns them. |
| AuthSchema.LoginIgnoresExtraKeys | client/src/schema/authSchema.ts:28-31 | Other keys make no difference to the login parse. |
| Home.Take | client/src/pages/Home.tsx:18 | `slice(0, n)`: a prefix of length min(n, length). |
| Home.FeaturedBlogs | client/src/pages/Home.tsx:17-33 | At most 3 blogs. |
| Home.Latest | client/src/pages/Home.tsx:21-26 | The top-up candidates are newest first by `createdAt`. Each blog whose id is not among the chosen ones appears as often as in the list, and no other blog appears. |
| Home.FilterDistinctIds | client/src/pages/Home.tsx:18 | Filtering keeps ids distinct. |
| Home.FeaturedAmong | client/src/pages/Home.tsx:26 | A featured blog of the list is among the selected featured ones. |
| Home.EnoughFeatured | client/src/pages/Home.tsx:18-32 | With at least 3 featured, the selection is the first 3 featured ones, in list order. |
| Home.LatestNotFeatured | client/src/pages/Home.tsx:21-26 | The top-up candidates are newest first, come from the list, and are not featured. |
| Home.FeaturedBlogsShape | client/src/pages/Home.tsx:20-29 | With fewer than 3 featured, the selection is the featured ones followed by the first of the newest others. |
| Home.FewFeatured | client/src/pages/Home.tsx:20-29 | With fewer than 3 featured, the selection starts with all of them in list order. The rest is newest first, from the list, and not featured. |
| Home.TopUp | client/src/pages/Home.tsx:27-29 | Appending a prefix of a sorted list of non-featured blogs keeps that shape. |
| Home.NotAmongFeatured | client/src/pages/Home.tsx:26 | With distinct ids, "not among the featured" is "not featured". |
| Home.LatestCount | client/src/pages/Home.tsx:21-26 | With distinct ids, there are as many candidates as non-featured blogs, with distinct ids. |
| Home.PrefixDistinctIds | client/src/pages/Home.tsx:27 | A prefix keeps ids distinct. |
| Home.TopUpIds | client/src/pages/Home.tsx:29 | Appending candidates whose ids the featured part lacks keeps ids distinct. |
| Home.FeaturedLengthAndIds | client/src/pages/Home.tsx:17-33 | With distinct ids, the selection has min(3, length) blogs and no id twice. |
| Home.ToggleBookmark | client/src/pages/Home.tsx:35-39 | An absent id is appended at the end. A present id is removed, every copy of it, and the other ids are kept in order and as often as before. |
| Home.ToggleKeepsNoDup | client/src/pages/Home.tsx:35-39 | Toggling keeps the list duplicate-free. |
| Home.ToggleTwiceWhenAbsent | client/src/pages/Home.tsx:35-39 | Toggling an absent id twice gives back the very same list. |
| Home.ToggleTwiceWhenPresent | client/src/pages/Home.tsx:35-39 | Toggling a present id twice, starting from a duplicate-free list, gives back the same ids, duplicate-free. |
| AdminDashboard.FilterBlogs | client/src/pages/AdminDashboard.tsx:28-35 | A blog is kept exactly when its lower-cased title, author or some tag contains the lower-cased term. The kept blogs stay in store order, each as often as in the store. |
| AdminDashboard.EmptyTermKeepsAll | client/src/pages/AdminDashboard.tsx:28-35 | An empty term keeps every blog. |
| AdminDashboard.LowerIdempotent | client/src/pages/AdminDashboard.tsx:30 | Lower-casing twice is lower-casing once. |
| AdminDashboard.SearchIgnoresCase | client/src/pages/AdminDashboard.tsx:30-33 | The search does not depend on the case of the term. |
| AdminDashboard.ContainsTransitive | client/src/pages/AdminDashboard.tsx:30 | `includes` is transitive. |
| AdminDashboard.MatchesTextNarrowing | client/src/pages/AdminDashboard.tsx:30 | A text matching a term matches every part of it. |
| AdminDashboard.RefiningNarrows | client/src/pages/AdminDashboard.tsx:28-35 | Every blog a longer term finds, a shorter part of it finds too. |
| AdminDashboard.SubmitAction | client/src/pages/AdminDashboard.tsx:52-61 | A create exactly when not editing. An update exactly when editing with a truthy `_id`. Nothing exactly when editing without one. The action carries the submitted values. |
| AdminDashboard.EditedFormSubmitsUpdate | client/src/pages/AdminDashboard.tsx:42-55 | A form opened on a stored blog with a non-empty id submits an update. |
| AdminDashboard.AfterSubmit | client/src/pages/AdminDashboard.tsx:52-61 | A submission dispatches at most one action, after the earlier ones. |
| AdminDashboard.Dashboard.constructor | client/src/pages/AdminDashboard.tsx:24-73 | The form is closed, no blog is edited, the search is empty, and the mount effect has dispatched `fetchBlogs`. |
| AdminDashboard.Dashboard.HandleCreate | client/src/pages/AdminDashboard.tsx:37-40 | The form is open on no blog, and nothing is dispatched. |
| AdminDashboard.Dashboard.HandleEdit | client/src/pages/AdminDashboard.tsx:42-45 | The form is open on that blog. |
| AdminDashboard.Dashboard.HandleDelete | client/src/pages/AdminDashboard.tsx:47-50 | Dispatches a delete of the id; the form state is kept. |
| AdminDashboard.Dashboard.HandleSubmit | client/src/pages/AdminDashboard.tsx:52-64 | Dispatches what `SubmitAction` says, then closes the form on no blog in every case. |
| AdminDashboard.Dashboard.HandleCancel | client/src/pages/AdminDashboard.tsx:66-69 | Closes the form on no blog without dispatching. |
| AdminDashboard.Dashboard.SetSearchTerm | client/src/pages/AdminDashboard.tsx:26 | Sets only the search term. |
| BlogOrder.AscendingCompare | client/src/components/blogs/BlogsTable.tsx:61-76 | The ascending comparator gives -1, 0 or 1. It is 0 exactly when the two blogs tie on the field: same title, author, date or flag, and every other field always ties. On `featured`, a featured blog comes after one that is not. |
| BlogOrder.Compare | client/src/components/blogs/BlogsTable.tsx:61-76 | The comparator handed to `sort`: the ascending comparison for `asc`, exactly its negation for `desc`, and 0 exactly on a tie. |
| BlogOrder.CompareAntisymmetric | client/src/components/blogs/BlogsTable.tsx:61-76 | Swapping the operands negates the comparator, for every field and direction. |
| BlogOrder.CompareTransitive | client/src/components/blogs/BlogsTable.tsx:61-76 | "Not after" is transitive, for every field and direction. |
| BlogOrder.Insert | client/src/components/blogs/BlogsTable.tsx:61 | Adds exactly the inserted blog (multiset). |
| BlogOrder.InsertSorted | client/src/components/blogs/BlogsTable.tsx:61-76 | Insertion keeps a list sorted. |
| BlogOrder.Sort | client/src/components/blogs/BlogsTable.tsx:61-76 | `[...blogs].sort(comparator)`: a permutation of its input, sorted by the field and direction. |
| BlogOrder.SortedPrefix | client/src/pages/Home.tsx:27 | A prefix of a sorted list is sorted. |
| BlogOrder.FilterSorted | client/src/pages/Home.tsx:21-26 | Filtering keeps a list sorted. |
| BlogOrder.SortDistinctIds | client/src/pages/Home.tsx:21 | Sorting keeps ids distinct. |
| BlogsTable.TruncateTitle | client/src/components/blogs/BlogsTable.tsx:102-106 | A title of at most 30 characters is unchanged; a longer one becomes its first 30 and "...". |
| BlogsTable.TruncatedIsPrefix | client/src/components/blogs/BlogsTable.tsx:160-162 | What is shown before any "..." is a prefix of the title of at most 30 characters. The text is longer than 30 exactly when the tooltip with the full title is shown. |
| BlogsTable.VisibleTags | client/src/components/blogs/BlogsTable.tsx:183 | The first two tags, or all of them when there are at most two. |
| BlogsTable.HiddenTagCount | client/src/components/blogs/BlogsTable.tsx:188-192 | An overflow badge exactly when there are more than 2 tags, with a positive count. |
| BlogsTable.TagBadgesCountAll | client/src/components/blogs/BlogsTable.tsx:183-192 | The badges shown plus the overflow count account for every tag. |
| BlogsTable.NextSort | client/src/components/blogs/BlogsTable.tsx:52-59 | The clicked field becomes the sort field. The same field flips the direction; another one sorts descending. |
| BlogsTable.SortTwiceRestores | client/src/components/blogs/BlogsTable.tsx:52-59 | Clicking the sort field twice restores its direction. |
| BlogsTable.NewColumnTwiceAscends | client/src/components/blogs/BlogsTable.tsx:52-59 | Clicking a new field twice sorts it ascending. |
| BlogsTable.ConfirmStep | client/src/components/blogs/BlogsTable.tsx:82-87 | `onDelete` is called once with the pending id, and the dialog closes, exactly when that id is truthy. Otherwise nothing changes. |
| BlogsTable.ConfirmTwiceDeletesOnce | client/src/components/blogs/BlogsTable.tsx:82-87 | Confirming twice deletes once. |
| BlogsTable.TableState.constructor | client/src/components/blogs/BlogsTable.tsx:48-50 | Sorted by `createdAt`, descending, with no dialog open. |
| BlogsTable.TableState.SortedBlogs | client/src/components/blogs/BlogsTable.tsx:61-76 | The rows are a permutation of the blogs, sorted by the current field and direction. |
| BlogsTable.TableState.HandleSort | client/src/components/blogs/BlogsTable.tsx:52-59 | The sort state becomes `NextSort`; the dialog is kept. |
| BlogsTable.TableState.HandleDeleteClick | client/src/components/blogs/BlogsTable.tsx:78-80 | Opens the dialog on the id. |
| BlogsTable.TableState.ConfirmDelete | client/src/components/blogs/BlogsTable.tsx:82-87 | The pending id and the deleted ids become `ConfirmStep`. |
| BlogsTable.TableState.CancelDelete | client/src/components/blogs/BlogsTable.tsx:89-91 | Closes the dialog without deleting. |
| BlogFormComponent.FromBlog | client/src/pages/AdminDashboard.tsx:102-103 | A form opened on a stored blog carries its `_id` and its avatar, and every other field of the blog. |
| BlogFormComponent.BlankValues | client/src/components/forms/BlogForm.tsx:32-43 | The default values: no `_id`, empty title, content, author and avatar, today's date, "5 min read", no tags, not featured and zero counters. |
| BlogFormComponent.InitialValues | client/src/components/forms/BlogForm.tsx:32 | The given values when there are some, otherwise a new form without `_id`, dated today and without tags. |
| BlogFormComponent.BlankFormIssues | client/src/components/forms/BlogForm.tsx:32-43 | A new form fails exactly on title, content, author and tags: today's date and "5 min read" already pass. |
| BlogFormComponent.ParseIdempotent | client/src/components/forms/BlogForm.tsx:30-31 | Parsed values parse to themselves. |
| BlogFormComponent.AddTag | client/src/components/forms/BlogForm.tsx:49-53 | Appends the trimmed input exactly when it is non-blank and not already a tag. |
| BlogFormComponent.RemoveTagFrom | client/src/components/forms/BlogForm.tsx:57-62 | No occurrence of the tag is left. The other tags are kept in order and as often as before, and none is added. |
| BlogFormComponent.AddTagKeepsNoDup | client/src/components/forms/BlogForm.tsx:50 | Adding never creates a duplicate. |
| BlogFormComponent.RemoveAfterAdd | client/src/components/forms/BlogForm.tsx:49-62 | Removing a tag just added gives back the tags there were. |
| BlogFormComponent.TagEditor.constructor | client/src/components/forms/BlogForm.tsx:32-43 | The given tags and an empty input. |
| BlogFormComponent.TagEditor.SetInput | client/src/components/forms/BlogForm.tsx:49 | Sets the input box. |
| BlogFormComponent.TagEditor.HandleTagKeyDown | client/src/components/forms/BlogForm.tsx:46-55 | Only Enter acts. The tags become `AddTag`, the input is cleared exactly when the tag was accepted, and tags stay duplicate-free. |
| BlogFormComponent.TagEditor.RemoveTag | client/src/components/forms/BlogForm.tsx:57-62 | The tags become `RemoveTagFrom`, duplicate-free if they were. |
| Navbar.VisibleItems | client/src/components/navbar/Navbar.tsx:16-18 | An item is kept exactly when it is not the dashboard link or the user is an admin. The kept items stay in order, each as often as given. |
| Navbar.AdminSeesAll | client/src/components/navbar/Navbar.tsx:16-18 | An admin sees every item, in order. |
| Navbar.OthersMissOnlyDashboard | client/src/components/navbar/Navbar.tsx:16-18 | Anyone else sees every item but the dashboard link, in order. |
| Navbar.DefaultItemsForVisitor | client/src/config/constants.ts:3-7 | With the application's items, a visitor sees Home and Articles. |
| Seqs.Filter | client/src/features/blog/blog.slice.ts:122 | `filter`: no longer than the input; every kept element satisfies the predicate and is in the input; every input element satisfying it is kept. |
| Seqs.FilterIsSubsequence | client/src/features/blog/blog.slice.ts:122 | `filter` keeps its elements in their input order: the result is a subsequence of the input. |
| Seqs.FilterCounts | client/src/features/blog/blog.slice.ts:122 | `filter` keeps each element satisfying the predicate as many times as it occurs in the input, and no other element. |
| Seqs.FilterIdempotent | client/src/features/blog/blog.slice.ts:203 | Filtering twice is filtering once. |
| Seqs.FilterNoDup | client/src/components/forms/BlogForm.tsx:60 | Filtering keeps a list duplicate-free. |
| Strings.Trim | server/src/models/blog.model.ts:6 | `trim()`: the input with the white space around it removed. The result is a slice of the input with only white space before and after it, neither starts nor ends with white space, and is empty exactly when the input is all white space. |
| Strings.TrimIdempotent | server/src/models/blog.model.ts:6 | Trimming twice is trimming once. |
| Strings.Contains | client/src/pages/AdminDashboard.tsx:30 | `includes`: true exactly when the part occurs at some position. |
| Strings.StrCmpAntisymmetric | server/src/api/v1/controllers/admin/blog.controller.ts:67 | The `createdAt` order is antisymmetric, and 0 means equal. |
| Strings.StrCmpTransitive | server/src/api/v1/controllers/admin/blog.controller.ts:67 | The `createdAt` order is transitive. |

## Left out

- Network I/O: the thunks' service calls, HTTP transport, the error handler's mapping of errors to statuses, and `createApiHandler`. The slice reducers and the controller handlers are modelled, not their transport.
- Transactions, sessions and concurrency. Each handler is one atomic, sequential step, so the race between two creates with the same title is not modelled.
- Mongoose internals: `.lean()`, `.select("-__v")`, ObjectId casting, and the keeping of an `_id` sent in an update body. The document `_id` is a string key.
- Timestamps: `createdAt` and `updatedAt` values that Mongoose writes itself are not modelled. A create keeps the `createdAt` the body gives. An update never changes it, because `timestamps` makes it immutable (`BlogController.Updated`). `updatedAt` is not a field of the model.
- A duplicate `_id` on create becomes an error of its own (`DuplicateKey`). The source only rethrows the driver's error.
- Title trimming on queries: the model trims the title in the uniqueness lookups as well as on writes, because Mongoose applies `trim` to query filters too.
- The create and update bodies are values that `blogFormSchema` has already parsed. The routes run that schema first, so the controller never sees an unparsed body.
- The requesting user is always present: the admin routes require authentication.
- bcrypt, jsonwebtoken and the cookie transport are foreign. They are the fields of `Crypto`, and login's `compare` on a user without a password is the error `IllegalArguments`.
- Role names other than USER and ADMIN are not modelled.
- zod's `.email()` check is the parameter `isEmail`. The message listing the unrecognized keys is not modelled beyond its first words.
- Dates and locales: `new Date(...).getTime()`, `toLocaleDateString`, date-fns `format` and `localeCompare` are replaced by plain code-point string order (`StrCmp`), and today's date is a parameter. For `YYYY-MM-DD` strings that are real calendar dates, that order is the date order.
- Invalid dates: the schema checks only the `YYYY-MM-DD` shape, so it accepts "2024-13-01". `new Date` makes that NaN, and the sorts in Home and BlogsTable then tie it with every other date. `StrCmp` instead sorts it after "2024-12-31".
- String lengths: a Dafny string is a sequence of Unicode code points, but JavaScript's `length` counts UTF-16 code units. Every length limit is checked in code points: the blog schema's `min`/`max`, the register schema's name and password, the user model's `minlength`, and `truncateTitle`'s 30. So a text with characters above U+FFFF, such as an emoji, is measured shorter than JavaScript measures it. `substring(0, 30)` splitting a surrogate pair is not modelled.
- `StrCmp` compares code points, where JavaScript compares UTF-16 code units. The two orders differ only for characters above U+FFFF.
- `toLowerCase` lower-cases ASCII letters only.
- `likes`/`bookmarks` are integers: `parseInt` on the inputs and fractional numbers are not modelled.
- BlogOrder.Sort: states a sorted permutation, not the stability of `Array.prototype.sort`: ties keeping their input order is not stated.
- BlogsTable.TableState.SortedBlogs: states a sorted permutation of the blogs, not that ties keep their input order as `Array.prototype.sort` does.
- Rendering, styling, animation, `preventDefault`, and the MobileMenu component. The mobile menu receives the same `filteredItems` list, which is all the model says of it.
- The `useAdminAuth` hook is a parameter (`isAdmin`).
- BlogsTable.TableState.ConfirmDelete: a pending id of "" is falsy, so the dialog stays as it is. The model keeps that behaviour.

## Findings

| source | as written | input that shows it | evidently intended | confidence | as-written member | corrected member |
|---|---|---|---|---|---|---|
| server/src/api/v1/controllers/auth.controller.ts:21-34, 62 | `register` looks up and stores the email as given; `login` looks it up lowercased | register "Alice@example.com" / "Secret#123", then log in with the same email and password: "Invalid credentials" | register stores (and checks) the email lowercased, so the same credentials log in | not executed | AuthController.MixedCaseEmailCannotLogIn, AuthController.AliceCannotLogIn | AuthController.RegisterNormalizedResult, AuthController.RegisterThenLogIn |
