# social-media-api in Dafny

A model of the business rules of the `social-media-api` Django backend. Users register with an
email, log in and out, and follow one another. They publish posts that others can search, like
and comment on. A periodic task publishes posts whose scheduled time has come. The model keeps
the program's structure: one module per source file, plus `Common` (option, result, error and
response types, and a sequence filter) and `Text` (the string operations Django and Python
supply).

- `UserModels` (`user/models.py`): the `User` row and the `UserManager` account creation rules.
  The class `UserStore` holds the user table, the two independent follow relations
  (`followers`, `following`) and the token table. Its `Valid()` holds the `unique=True`
  constraints on email and username, and the pairing "a ∈ followers(b) ⇔ b ∈ following(a)".
- `UserViews` (`user/views.py`): the searchable user list, follow, unfollow and logout, as
  methods on a `UserStore`.
- `UserSerializers` (`user/serializers.py`): registration, profile update with the password
  branch, and login validation.
- `ContentModels` (`content/models.py`): posts and comments. The class `ContentStore` keeps the
  posts newest first (`ordering = ("-posted_at",)`) with distinct keys and text of at most 255
  characters. The module also covers the post image path, the sentinel user, and deleting a
  user, whose posts pass to the sentinel.
- `ContentViews` (`content/views.py`): the post list and its three feeds, the like toggle,
  post creation, and the comments of one post.
- `Permissions` (`content/permissions.py`): `IsOwnerOrReadOnly`.
- `Tasks` (`content/tasks.py`): `publish_scheduled_posts`, with `now` as a parameter.

Hashing (`make_password`), e-mail and username normalisation, `authenticate` and
`uuid.uuid4()` are parameters. Hashing and the two normalisations are function-valued fields
of `UserModels.Services`. `authenticate` is a function argument, and the uuid is text that
`Text.IsUuidText` accepts.

The upload path uses the row's own key (`instance.id`), not the owner's. That key is `None`
for a new row, because Django calls `upload_to` before the INSERT, so a new post's image is
stored as `post-images/None-<uuid><suffix>` (`ContentViews.CreatePost` passes `None`).
`Text.FormatId` renders both cases.

Every text field of `UserSerializer`, `UserUpdateSerializer` and `PostSerializer` goes through
DRF's `CharField` cleaning (`Text.CleanChar`): the value is stripped, a blank value is refused
or becomes '', and the length bounds, the NUL check and the unique columns apply to the
stripped value. `UserTokenSerializer` cleans its email the same way, but its password, which
`AuthTokenSerializer` declares with `trim_whitespace=False`, is kept as sent: only a missing
or empty value or a NUL is refused (`UserSerializers.Login`). Because the email and the
password are both required and non-blank by then, the 'Must include "email" and "password".'
branch of `validate` is never reached through `Login`. The comment serializer is not part of
this model, so comment text is not cleaned.

## Model

| member | source | states |
|---|---|---|
| UserModels.NewUserObject | user/models.py:19-34 | a missing or empty email is a ValueError "The given email must be set"; otherwise the email is normalised, the password is `make_password(password)`, the username is the given non-empty one or else the normalised email's part before the first `@`, both normalised, and the flags are the given ones (default False) |
| UserModels.UniqueViolation | user/models.py:90-101 | a row can be written next to the others exactly when no other row has its email or its username; email is reported first |
| UserModels.WritingRowKeepsUnique | user/models.py:90-101 | writing a row that violates neither unique constraint, under a new key or over its own, keeps email and username unique |
| UserModels.AddingUserKeepsConsistent | user/models.py:104-109 | a new user with empty follow sets keeps the two relations paired |
| UserModels.RemovingUserKeepsConsistent | user/models.py:104-109 | deleting a user together with every follow pair it belongs to keeps the relations paired |
| UserModels.InsertingRowKeepsValid | user/models.py:90-109 | a row inserted under the next key with empty follow sets, violating no unique constraint, keeps the tables valid |
| UserModels.DeletingRowKeepsValid | user/models.py:90-109 | deleting a row with its token and follow pairs keeps the tables valid |
| UserModels.UserStore.Insert | user/models.py:38 | saving a new user either fails with an IntegrityError naming the violated column and changes nothing, or stores the row under the next key with empty follow sets; uniqueness and pairing are kept |
| UserModels.UserStore.Update | user/models.py:90-101 | saving an existing user replaces its row unless another row holds the email or username, in which case nothing changes |
| UserModels.UserStore.Delete | user/models.py:104-109 | deleting a user removes its row, its token and every follow pair it belongs to, and keeps the store valid |
| UserModels.SaveNewUser | user/models.py:36-39 | `_create_user` builds the object and saves it; a refused email changes nothing |
| UserModels.CreateUser | user/models.py:47-50 | `is_staff` and `is_superuser` default to False unless given; the stored user carries exactly the given-or-default flags |
| UserModels.CreateSuperuser | user/models.py:57-66 | both flags default to True; an explicit False for `is_staff`, then for `is_superuser`, is refused with its message before anything is saved; a created superuser has both flags |
| UserModels.ProfileImagePath | user/models.py:80-82 | the path lies directly in `profile-pictures`, its file name is `<id>-<uuid><suffix>`, and it keeps the suffix of the uploaded file's name |
| Text.UploadPathShape | user/models.py:80-82 | the shared path shape: `dir/<id>-<uuid><suffix>`, whose final component has the original suffix |
| Text.BeforeFirst | user/models.py:26 | `email.split("@")[0]`: a prefix of the email with no `@`, followed by `@` in the email when shorter |
| Text.Suffix | user/models.py:81 | `PurePath.suffix`: empty or a dot and at least one dot-free character, taken from the end of the name; it is non-empty exactly when the name has a dot that is neither its first nor its last character and has no dot after it |
| Text.FinalComponent | user/models.py:81 | `PurePath.name`: the longest '/'-free end of the path, so the character before it, if any, is a '/' |
| Text.FormatId | user/models.py:81 | the formatted id is `None` exactly for an unset id, and otherwise the decimal digits of the id, without leading zeros, whose value is the id; so it never adds a '.' or '/' to the name |
| Text.ContainsIffOccurs | user/views.py:112 | the substring scan behind `__icontains` holds exactly when the needle occurs at some index |
| UserViews.ListUsers | user/views.py:107-122 | the list holds exactly the users whose username, first name and last name each contain the matching non-empty query parameter, ignoring case; an absent or empty parameter imposes nothing |
| UserViews.AddFollowKeepsConsistent | user/views.py:172-173 | following adds exactly the pair (actor, target) and keeps "a ∈ followers(b) ⇔ b ∈ following(a)" |
| UserViews.RemoveFollowKeepsConsistent | user/views.py:200-201 | unfollowing removes exactly the pair (actor, target) and keeps the pairing |
| UserViews.FollowThenUnfollowRestores | user/views.py:172-173 | a follow undone by an unfollow restores both relations |
| UserViews.UnfollowThenFollowRestores | user/views.py:200-201 | an unfollow undone by a follow restores both relations |
| UserViews.Follow | user/views.py:156-176 | a target outside the filtered list is a 404; following oneself is a 403 "You cannot follow yourself."; following a followed user is a 403 "You are already following this user."; each leaves both relations unchanged; otherwise both relations gain the pair and the answer is a 200 "Successfully followed this user." |
| UserViews.Unfollow | user/views.py:184-204 | a 404 for a target outside the list, a 403 for oneself or for a user not followed, each with both relations unchanged; otherwise both relations lose the pair and the answer is a 200 "Successfully unfollowed this user." |
| UserViews.Logout | user/views.py:65-75 | an existing token of the user is deleted and the answer is a 200 "Successfully logged out."; without one the answer is a 404 "Token not found." and no token changes |
| Text.CleanChar | user/serializers.py:7-27 | DRF's `CharField`: a value that is blank once stripped is '' where blank is allowed and refused with "This field may not be blank." otherwise; any other value is accepted exactly when its stripped text is within the length bounds and holds no NUL, and the stripped text is what is kept |
| UserSerializers.ValidationErrors | user/serializers.py:7-27 | without `partial` a missing email or password is an error; a stripped email or non-empty stripped username that another row holds is an error of that field |
| UserSerializers.ValidationErrorsIffAcceptable | user/serializers.py:7-27 | validation passes exactly when the stripped data is acceptable: email required (unless partial), non-empty, at most 254 characters and held by no other row; password required (unless partial) with 8 to 128 characters; a non-empty username held by no other row; usernames and names at most 150 characters, bio at most 255; no NUL anywhere |
| UserSerializers.Register | user/serializers.py:29-31 | an invalid registration is refused with nothing stored; a valid one goes through `create_user` with the stripped values, which always builds the row, so only a unique constraint can still refuse it; the stored email is the normalised stripped email, the password `make_password` of the stripped password, and neither flag is set |
| UserSerializers.DerivedUsernameCollision | user/serializers.py:29-31 | for every registration with no username whose normalised email's local part, once normalised, is another user's username (and which is otherwise valid, its email free in both forms), validation passes and the built row violates the unique username |
| UserSerializers.ApplyFields | user/serializers.py:35-36 | the generic field update never writes the password |
| UserSerializers.PasswordChangeIsUnique | user/serializers.py:38-40 | changing only the password of a row cannot violate a unique constraint |
| UserSerializers.UpdatedRow | user/serializers.py:33-42 | the row after an update has every given field written and keeps every other one; its password is `make_password(password)` for a non-empty password and the old one otherwise |
| UserSerializers.SetPassword | user/serializers.py:38-40 | `set_password` followed by a save changes only the password of that row and cannot be refused |
| UserSerializers.UpdateUser | user/serializers.py:33-42 | an update refused by a unique constraint fails with that column and writes nothing; otherwise the row becomes `UpdatedRow` and no other user changes |
| UserSerializers.ValidatedUpdateClash | user/serializers.py:45-54 | after `UserUpdateSerializer` accepts the (stripped) data, the save can clash with another row only on the username, and only when the data empties the username: the email never clashes |
| UserViews.UpdateProfile | user/views.py:78-87 | PUT and PATCH on the profile: data refused by validation changes nothing; accepted data is stripped and written by `update`, so the row becomes `UpdatedRow` of the stripped data unless the username clash above refuses it, with nothing written |
| UserSerializers.ValidateLogin | user/serializers.py:86-110 | a missing or empty email or password fails with 'Must include "email" and "password".'; credentials `authenticate` rejects fail with "Unable to log in with provided credentials."; success holds exactly otherwise, with `user` set to the authenticated user and the other attributes kept |
| UserSerializers.Login | user/serializers.py:82-110 | `UserTokenSerializer` succeeds exactly when the email is present with stripped text non-blank and free of NUL, the password is present, non-empty and free of NUL, and `authenticate` accepts the stripped email with the password as sent; the result then holds the stripped email, the unchanged password and the authenticated user; a missing email fails with "This field is required.", and the 'Must include' error is never the outcome |
| ContentModels.PostImagePath | content/models.py:12-14 | the path lies directly in `post-images`, its file name is `<id>-<uuid><suffix>`, and it keeps the uploaded file's suffix |
| ContentModels.InsertNewestFirst | content/models.py:33-34 | placing a post keeps the listing newest first and adds exactly that post to its contents |
| ContentModels.InsertKeepsDistinct | content/models.py:21-31 | a post with a fresh key keeps the keys of the listing distinct |
| ContentModels.FilterKeepsNewestFirst | content/models.py:33-34 | any filter of a newest-first listing is newest first |
| ContentModels.ContentStore.InsertPost | content/models.py:21-34 | saving a new post stores it under the next key at its place in the newest-first order |
| ContentModels.GetSentinelUser | content/models.py:17-18 | an existing user with email `deleted@deleted.com` is returned and nothing changes; otherwise that user is created with the model defaults; the returned user is the only one with that email, so repeated calls give the same user and create at most one |
| ContentModels.Reassigned | content/models.py:26-30 | the owner `from` becomes `to`; no post is removed, and other owners and all other fields are kept |
| ContentModels.WithoutLiker | content/models.py:21-30 | a deleted user's likes go with it; nothing else changes |
| ContentModels.PostsAfterDelete | content/models.py:26-30 | after a delete every post is still there with its key, text and time and without the deleted user's like; the deleted user's posts belong to the sentinel, the others keep their owner |
| ContentModels.RewriteKeepsValid | content/models.py:21-34 | rewriting owners, likes or the published flag keeps the listing newest first, the keys distinct and the text within 255 characters |
| ContentModels.NewOwner | content/models.py:17-30 | the collector fetches the sentinel on every delete, whether or not the user owns posts, creating it under the next key with empty follow sets when there is none; it fails exactly when the sentinel has to be created and violates a unique column, or when the sentinel is the deleted user and that user owns posts; in particular it succeeds whenever a sentinel row already exists and the deleted user does not own posts or is not the sentinel |
| ContentModels.RemoveUserRows | content/models.py:26-30 | once the sentinel is known, the posts are rewritten as `PostsAfterDelete` and the user's row, token and follow pairs go |
| ContentModels.DeleteUser | content/models.py:17-30 | a failure changes nothing; it fails exactly when the sentinel has to be created and violates a unique column, or when the deleted user is the sentinel and owns posts; when a sentinel other than the user already exists the delete succeeds and the posts go to that sentinel; on success the user table is the old one, plus a newly created sentinel, minus the user; the follow graph loses every pair of the user; the token goes; the posts become `PostsAfterDelete`, so no post is deleted |
| ContentViews.Queryset | content/views.py:25-31 | the post list holds exactly the posts whose text contains the non-empty `text` parameter, ignoring case, or all posts; it stays newest first |
| ContentViews.MyPosts | content/views.py:49-50 | "my-posts" holds exactly the listed posts the user owns, is a part of the post list and stays newest first |
| ContentViews.FollowingFeed | content/views.py:66-68 | "following" holds exactly the listed posts whose owner the user follows, is a part of the post list and stays newest first |
| ContentViews.LikedPosts | content/views.py:84-86 | "liked-posts" holds exactly the listed posts the user likes, is a part of the post list and stays newest first |
| ContentViews.IndexOf | content/views.py:122 | the lookup by primary key finds a post with that key, or reports that there is none |
| ContentViews.ListedIffInQueryset | content/views.py:122 | `get_object()` finds the post exactly when the filtered post list holds a post with that key |
| ContentViews.Toggle | content/views.py:123-131 | a toggle flips the actor's membership, keeps every other user's, and moves the like count by one |
| ContentViews.ToggleLikeAt | content/views.py:123-131 | only the likes of the toggled post change |
| ContentViews.LikeTwiceRestores | content/views.py:123-131 | two likes in a row by the same user restore every post, and so every like count |
| ContentViews.Like | content/views.py:121-134 | a post outside the filtered list is a 404 with nothing changed; a liker's like is removed ("You've removed your like."), anyone else's is added ("You've liked this post."), and only that post's likes change |
| ContentViews.CleanText | content/models.py:22-24 | the post text is required, is accepted exactly when it has a non-whitespace character and its stripped text has at most 255 characters and no NUL, and is stored stripped |
| Text.TrimShape | content/models.py:22-24 | the stripped text is a piece of the input and is empty exactly when the input is all whitespace |
| ContentViews.CreatePost | content/views.py:40-41 | invalid text is refused with nothing stored; a valid post is owned by the requesting user whatever the request says, posted at `now`, keyed by the next key and placed in the newest-first order |
| ContentViews.CommentsOf | content/views.py:141-143 | the comment list holds exactly the comments of the post in the URL |
| ContentViews.CommentsAfterAppend | content/views.py:145-148 | a new comment appears at the end of its own post's comment list and in no other |
| ContentViews.CreateComment | content/views.py:145-148 | a missing post is a DoesNotExist error with nothing stored; otherwise the comment is owned by the requesting user, attached to the URL's post and added to its list, and every other post's list is unchanged |
| Permissions.HasPermission | content/permissions.py:10-13 | safe methods are allowed for anyone; the others exactly for an authenticated user |
| Permissions.HasObjectPermission | content/permissions.py:15-19 | safe methods are allowed for anyone; the others exactly when the object's owner is the requesting user |
| Permissions.WriteOnlyByOwner | content/permissions.py:10-19 | with both checks, reads always pass and a write passes exactly for the authenticated owner; an authenticated non-owner is refused |
| Tasks.PublishDue | content/tasks.py:10-12 | a row is published afterwards exactly when it was published or due; only `is_published` is written; nothing stays due |
| Tasks.PublishAll | content/tasks.py:10-12 | the update rewrites each row on its own, and no row is added or removed |
| Tasks.PublishAllEffect | content/tasks.py:10-12 | every due post is published; a post not due (published, scheduled later or not scheduled) is untouched; only `is_published` changes; no post is due afterwards |
| Tasks.PublishAllIdempotent | content/tasks.py:10-12 | running the task twice with the same `now` gives the state of one run |
| Tasks.PublishScheduled | content/tasks.py:9-12 | the in-place pass over the stored posts leaves exactly `PublishAll` of the old posts, and the store stays valid |

## Left out

- Password hashing, e-mail and username normalisation, `authenticate`, token issuance and `uuid.uuid4()` are parameters, not modelled code.
- The async `acreate_user`, `acreate_superuser` and `_acreate_user` repeat the synchronous logic and are not modelled a second time.
- Pagination and JSON serialisation, including `write_only` fields, are not modelled. Each feed is modelled as the whole filtered listing.
- The username validator (`UnicodeUsernameValidator`) and the email format check are not modelled. Neither applies to a username derived from the email, which `UserSerializers.DerivedUsernameCollision` relies on.
- Text.Lower: only ASCII letters are lower-cased. The database's case-insensitive match, Unicode case folding and normalisation are left out.
- ContentViews.CleanText: reports the message of the first failing check. DRF lists the message of every failing validator, for example both the length and the NUL message.
- Text.CleanChar: DRF's `ProhibitSurrogateCharactersValidator` is not modelled. A `char` here is a Unicode scalar value, which is never a surrogate, so the check has nothing to refuse.
- Text.FinalComponent: a trailing '/' is kept, so `x.png/` has the empty name here. `PurePath` drops it and names the file `x.png`. Uploaded file names do not end in '/'.
- Text.Suffix follows the `pathlib` rules of Python 3.12. A name that ends with a dot has no suffix there.
- The unique constraints report email before username. The database's own order of checks is not specified.
- The `Comment` model and `CommentSerializer` are not part of this model. A comment is a key, text, owner, post key and time. Its text is not validated, its ordering is insertion order, and its owner is not reassigned when a user is deleted.
- `Post.likes`, `is_published` and `scheduled_at` are used by the views and the task but are not declared in `content/models.py`. They are minimal fields, and a new post's `is_published` and `scheduled_at` are parameters of `ContentViews.CreatePost` standing for the model defaults.
- Post `__str__` (the text itself) is not modelled. It has no behaviour beyond the field.
- The generic update and destroy of posts and comments (DRF `ModelViewSet`) are not modelled beyond the permission check that guards them.
- The derived fields (like count, "liked by me") and `UserRetrieveSerializer` are read-only presentation and are not modelled. The like count is the size of `Post.likes`.
- ImageField storage, database atomicity and concurrent requests are not modelled. Every operation is one atomic step.
- Deleting a user is modelled for the sentinel reassignment of posts. The rollback when the sentinel itself owns posts is modelled as "nothing changes". The sentinel is fetched on every delete, as the collector of Django 4.2 and later does; the source needs Django 4.2 or later (`asave`).
- UserSerializers.ValidationErrors names the fields in error, not their messages.
- UserModels.UserStore.Insert: the column lengths (username 150, email 254, first and last name 150, bio 255) are not enforced by the store. The serializers bound every field they accept, but a username derived from an email longer than 150 characters is stored here. A database that enforces `varchar(150)` refuses it with a DataError, while SQLite stores it; that behaviour belongs to the database, not to the source.
- UserSerializers.Login: reports the first failing field. DRF validates both fields and lists the errors of each.
