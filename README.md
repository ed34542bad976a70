# Micro-blog follower graph, timeline and form validation in Dafny

This project models the logic at the centre of a small Flask micro-blog:

- the `followers` association table, a list of (follower id, followed id) rows over users, with
  `User.follow`, `User.unfollow` and `User.is_following`;
- `User.followed_posts`, the home timeline: the user's own posts together with the posts of everyone
  the user follows, without repeats, newest first;
- the registration and profile forms' validation: the username and email lookups against the user
  table, and the declared constraints `DataRequired`, `EqualTo('password')` and `Length(max=140)`.

Files:

- `sequences.dfy` (module `Sequences`): `NoDuplicates` and `Distinct`, the set semantics of SQL `UNION`.
- `models.dfy` (module `Models`): `Edge` and `Post` rows, the pure queries, the class `FollowersTable`
  whose methods `Follow` and `Unfollow` update the table in place, and the timeline.
- `forms.dfy` (module `Forms`): the `User` rows the validators look at, the validators, and the
  lists of field errors each form reports.

Modelling choices:

- The `followers` table is a `seq<Edge>` of rows. The storage layer does not forbid a row appearing
  twice; the `is_following` guard in `follow` keeps the table duplicate-free, and
  `FollowersTable.Valid()` is that invariant.
- One `FollowersTable` object stands for the whole shared table. `Follow(follower, followed)` is
  `self.follow(user)` with `follower` = `self.id` and `followed` = `user.id`; `Unfollow` likewise.
- `is_following` is the count of matching rows being positive (`CountEdge(...) > 0`), as in the source.
- `unfollow` deletes the pair's association row (`RemoveEdge`). The tables `follow` builds are
  duplicate-free, and on those exactly one row goes (`RemoveEdgeDeletesOneRow`).
- The join in `followed_posts` yields a post once per matching row (`JoinFollowed`). The union removes
  repeats (`Distinct`), and `ORDER BY timestamp DESC` is an insertion sort (`SortNewestFirst`).
  Timestamps are integers supplied by the caller.
- `DataRequired` is modelled as WTForms defines it: the field fails when its data is empty or when
  Python's `str.strip()` leaves nothing (`Required`, over `Strip` and the whitespace set of
  `str.isspace`). This is proved equivalent to `HasData`, "some character is not whitespace". A
  failure stops the field's validator chain. The inline validators `validate_username` and
  `validate_email` run after the declared ones.
- String comparison is exact and case-sensitive, and lengths count code points (Dafny `char`s).

Behaviour of the code that the model keeps as written:

- Self-follow: `User.follow` has no self-follow check (app/models.py:48-50), so `Follow(a, a)` adds
  the row.
- Timeline after unfollow: `followed_posts` is recomputed from the current table
  (app/models.py:65-70). So every post of an unfollowed author disappears, including posts written
  while following (`UnfollowHidesAuthorPosts`, `FollowUnfollowScenario`).
- Renaming: `EditProfileForm` has no username lookup (app/forms.py:38-45), so `EditProfileErrors`
  does not take the user table and accepts a username another user already has.
- Tie order: the query orders by timestamp only (app/models.py:70), so the model claims nothing
  about posts with equal timestamps.
- About-me: the profile form declares it `DataRequired` (app/forms.py:45), so an empty or
  all-whitespace About-me is rejected.

## Model

| member | source | states |
|---|---|---|
| `Models.CountEdge` | app/models.py:58-60 | the number of rows the `is_following` query counts is the multiplicity of the edge in the table, and it is positive exactly when the edge is a row |
| `Models.IsFollowing` | app/models.py:58-60 | `is_following(follower, followed)` holds iff the row (follower, followed) is in the `followers` table |
| `Models.AddEdge` | app/models.py:48-50 | after `follow` the edge is present; every other row's presence is unchanged; an existing edge leaves the table unchanged, otherwise exactly that row is appended; a duplicate-free table stays duplicate-free |
| `Models.RemoveEdge` | app/models.py:53-55 | deleting the pair's rows leaves every other row's multiplicity unchanged and the pair's at zero; a table without that edge is unchanged; a duplicate-free table stays duplicate-free |
| `Models.RemoveEdgeMembership` | app/models.py:53-55 | after `unfollow` the edge is absent and every other edge is present exactly when it was before |
| `Models.CountAtMostOne` | app/models.py:48-60 | on a duplicate-free table the `is_following` count is at most one |
| `Models.RemoveEdgeDeletesOneRow` | app/models.py:53-55 | on a duplicate-free table, unfollowing a followed user removes exactly one row |
| `Models.FollowThenUnfollowRestores` | app/models.py:48-55 | `unfollow` after a `follow` that added the row restores the table exactly |
| `Models.FollowIdempotent` | app/models.py:48-50 | following twice gives the same table as following once |
| `Models.UnfollowIdempotent` | app/models.py:53-55 | unfollowing twice gives the same table as unfollowing once |
| `Models.FollowersTable.Valid` | app/models.py:48-55 | the invariant the `is_following` guards keep: no row of the table appears twice |
| `Models.FollowersTable.constructor` | app/models.py:10-13 | a new table has no rows and satisfies the no-duplicate invariant |
| `Models.FollowersTable.Follow` | app/models.py:48-50 | the new table is the guarded append of the old one; `is_following` holds afterwards; when already following nothing changes, otherwise exactly one row is added; no other edge changes; the no-duplicate invariant is preserved |
| `Models.FollowersTable.Unfollow` | app/models.py:53-55 | the new table is the old one without the pair's row; `is_following` is false afterwards; when not following nothing changes; on a duplicate-free table exactly one row goes; every other row's multiplicity is unchanged; the invariant is preserved |
| `Models.JoinFollowed` | app/models.py:66-68 | a post is in the join iff it is in the post table and its author is followed by the user |
| `Models.OwnPosts` | app/models.py:69 | a post is selected iff it is in the post table and the user wrote it |
| `Sequences.Distinct` | app/models.py:70 | the `union` keeps every post of either query and holds none twice |
| `Models.SortNewestFirst` | app/models.py:70 | the result is ordered by timestamp, newest first, and is a permutation of its input (so a duplicate-free input stays duplicate-free) |
| `Models.FollowedPosts` | app/models.py:65-70 | a post is on the timeline iff it is in the post table and its author is the user or someone the user follows; the timeline is newest first and holds no post twice |
| `Models.FollowShowsAuthorPosts` | app/models.py:65-70 | after `follow`, every post of the followed author is on the follower's timeline |
| `Models.UnfollowHidesAuthorPosts` | app/models.py:65-70 | after `unfollow`, no post of the unfollowed author (other than the user) is on the timeline, old posts included |
| `Models.OwnPostsAlwaysShown` | app/models.py:65-70 | a user's own posts are always on the user's timeline |
| `Models.FollowUnfollowScenario` | app/models.py:48-70 | a concrete follow, post, unfollow, post run: the first post shows while following, and the timeline is empty after unfollowing |
| `Forms.FirstWith` | app/forms.py:28-33 | the `filter_by(...).first()` lookup finds a row with that exact column value, and finds none iff no row has it |
| `Forms.ValidateUsername` | app/forms.py:27-30 | the username is rejected, with "Please use a different username", exactly when some user already has it |
| `Forms.ValidateEmail` | app/forms.py:32-35 | the email is rejected, with "Please use a different email", exactly when some user already has it |
| `Forms.HasData` | app/forms.py:20-23 | the reference meaning of `DataRequired`: some character of the field is not whitespace |
| `Forms.Strip` | app/forms.py:20-23 | Python's `str.strip()`, over the `str.isspace` whitespace set, leaves nothing exactly when every character is whitespace |
| `Forms.Required` | app/forms.py:20-23 | `DataRequired`'s test, that the data is empty or strips to nothing, fails exactly when the field has no data in the sense of `HasData`; a failure is the `DataRequired` violation |
| `Forms.FieldErrors` | app/forms.py:20-35 | a field without data reports only `DataRequired`. A field with data reports exactly its failing later validators: each failure is reported, and every reported error is on this field and comes from a failing validator. The field reports nothing iff it has data and every later validator passes |
| `Forms.RegistrationErrors` | app/forms.py:19-35 | registration reports no error iff username, email, password and repeat password all have data, no user has the username, no user has the email, and the repeat password equals the password |
| `Forms.TakenUsernameReported` | app/forms.py:27-30 | a taken username is reported on the username field with the source's message |
| `Forms.TakenEmailReported` | app/forms.py:32-35 | a taken email is reported on the email field with the source's message |
| `Forms.PasswordMismatchReported` | app/forms.py:23 | a repeat password that differs from the password is reported as an `EqualTo('password')` failure |
| `Forms.EditProfileErrors` | app/forms.py:38-45 | the profile form reports no error iff the username and About-me have data and About-me has at most 140 characters; a longer About-me is reported as a `Length(max=140)` failure |

## Left out

- RegistrationErrors: does not model the `Email()` format validator (app/forms.py:21). It is a
  library check whose rules are not visible here, so the model accepts some addresses the form rejects.
- `set_password` and `check_password` (app/models.py:34-38): thin wrappers over werkzeug's password
  hashing. That library is not part of this model.
- `avatar` (app/models.py:40-45): an MD5 digest formatted into a Gravatar URL, a foreign hash call.
- `load_user` (app/models.py:73-75) and the `__repr__` methods: an ORM fetch for the login manager and
  debug strings.
- `last_seen` and `Post.timestamp` defaults (app/models.py:23, 80): these read the wall clock.
  Timestamps are integers passed in.
- Column widths `String(64)`, `String(120)`, `String(128)` and `String(140)` on the model
  (app/models.py:18-22, 79): they are storage declarations, not checked by the code shown.
- The join from `followed` to the `user` table in `is_following`: the model assumes every id in a row
  names an existing user, as the foreign keys intend.
- RemoveEdge on a table with duplicate rows: the model deletes every copy. The source's ORM flush
  of such a removal fails instead, and the request is rolled back. The tables `follow` builds have no
  duplicate rows, and on those the model and the source agree (`RemoveEdgeDeletesOneRow`).
- Which row `first()` returns when several match: only whether one exists matters to the validators.
- The order of posts with equal timestamps: the query leaves it unspecified, so no claim is made.
- Storage-level uniqueness of rows and concurrent duplicate follows: the source has neither a
  uniqueness constraint nor locking. The model is sequential.
- `LoginForm` (app/forms.py:11-16), app/routes.py, app/errors.py and app/__init__.py: request
  handling, templates, sessions and framework wiring.
