# LMS backend: link validation, price conversion and permission checks

This project models, in Dafny, the self-contained decision logic of a Django
REST Framework learning-management backend (courses, lessons, users,
payments):

- **Video-link validation** (`Validators`, `lms/validators.py`). A lesson's
  `video_url` is accepted when it is absent or empty, or when the text
  `youtube.com` occurs anywhere in it; otherwise a `ValidationError` is
  raised. Accepted values come back unchanged. The link is a `seq<char>`
  wrapped in `Option` (Python's `None`), the outcome a `Result`. Python's
  `in` on strings is an executable search (`Contains`) proved equal to a
  reference definition (`IsSubstring`: some index where the text starts).
- **USD to RUB conversion** (`Services`, `users/services.py`). A dollar amount
  becomes kopecks at the fixed rate of 95 roubles per dollar:
  `int(amount * 95 * 100)`. The amount is an exact rational `num / den`. A
  whole-dollar `int` is `n / 1` and a two-digit `Decimal` price is
  `cents / 100`. Python's `int()` truncates toward zero; this is written out
  in `TruncateTowardZero`, because Dafny's own division on negative numbers
  does not do that.
- **Permission classes** (`Permissions`, `users/permissions.py`).
  `IsModerator.has_permission` evaluates
  `request.user.groups.filter(name="moderators").exists()`. The user's groups
  are a sequence of group rows. The filter is a recursive function, and the
  anonymous user has no groups. `IsOwner.has_object_permission` evaluates
  `obj.owner == request.user`, which Django decides by primary key. The
  anonymous user owns nothing. The view is a parameter that neither decision
  reads.

All three pieces are pure in the source, so the model uses datatypes,
functions and lemmas, with no classes and no loops. `Wrappers` holds the
shared `Option` and `Result` types.

Two details of the code matter here:

- The conversion truncates after scaling to kopecks
  (`int(amount * 95 * 100)`). It never rounds to whole roubles first, so one
  cent gives 95 kopecks.
- The moderator group name `"moderators"` is hard-coded in
  `users/permissions.py`, while the group-creation command reads its group
  name from settings (`users/management/commands/cr_group.py:10`); the model
  does not assume the two agree.

The functions `Permissions.AddGroup` and `Permissions.RemoveGroup` stand for
Django's `user.groups.add` and `user.groups.remove`. The permission classes
never call them; they exist only so that the lemmas about joining and leaving
groups can be stated.

## Model

| member | source | states |
|---|---|---|
| `Validators.Contains` | lms/validators.py:8 | the search finds `t` in `s` exactly when `t` occurs in `s` at some index (Python's substring `in`) |
| `Validators.ValidateYoutube` | lms/validators.py:4-10 | the value is accepted iff it is `None`, empty, or contains `youtube.com`; an accepted value is returned unchanged; a rejection carries the fixed message |
| `Validators.FalsyAccepted` | lms/validators.py:8-10 | `None` and `""` are accepted and returned as they are |
| `Validators.ValidateYoutubeIdempotent` | lms/validators.py:10 | validating an accepted value's result again gives the same success |
| `Validators.AcceptedUnderWrapping` | lms/validators.py:8 | any text wrapped around a non-empty accepted link is accepted too: the test is on the text, not on the host |
| `Validators.OtherHostMentioningYoutubeAccepted` | lms/validators.py:8 | `https://evil.example/?youtube.com` is accepted |
| `Validators.NoLowercaseYRejected` | lms/validators.py:8-9 | a non-empty link with no lower-case `y` is rejected with the validation error (the test is case-sensitive) |
| `Validators.UpperCaseHostRejected` | lms/validators.py:8-9 | `YOUTUBE.COM` is rejected |
| `Services.TruncateTowardZero` | users/services.py:11 | Python's `int()` of `num / den`: the integer next to the quotient on the side of zero, with its sign |
| `Services.ConvertUsdToRub` | users/services.py:7-11 | the kopeck amount keeps the amount's sign and lies within one kopeck of the exact product `amount * 9500`, on the side of zero |
| `Services.ConvertWholeDollars` | users/services.py:10-11 | `n` whole dollars convert to exactly `n * 9500` kopecks |
| `Services.ConvertExamples` | users/services.py:10-11 | 10 dollars give 95000 kopecks and 1 dollar gives 9500 |
| `Services.ConvertCents` | users/services.py:11 | an amount of `c` hundredths converts to exactly `95 * c` kopecks, with no truncation loss |
| `Services.ConvertKeepsSign` | users/services.py:11 | zero converts to zero; non-negative amounts give non-negative results and non-positive amounts non-positive ones |
| `Services.TruncateMonotone` | users/services.py:11 | `int()` is monotone on rationals with any positive denominators |
| `Services.ConvertMonotone` | users/services.py:11 | `a <= b` implies `convert(a) <= convert(b)`, for any rational amounts |
| `Services.ConvertAdditiveDollars` | users/services.py:11 | on whole dollars `convert(a + b) == convert(a) + convert(b)` |
| `Services.ConvertAdditiveCents` | users/services.py:11 | on two-digit amounts `convert(a + b) == convert(a) + convert(b)` |
| `Services.ConvertNotAdditiveBelowCents` | users/services.py:11 | half a cent converts to 47 kopecks and one cent to 95, so additivity fails below cents |
| `Services.ConvertNegativeTowardZero` | users/services.py:11 | minus half a cent converts to -47 kopecks (toward zero, not floored to -48) |
| `Permissions.FilterByName` | users/permissions.py:8 | `groups.filter(name=...)` keeps exactly the user's groups with that name, and no more rows than there were |
| `Permissions.IsModeratorHasPermission` | users/permissions.py:7-8 | the permission holds iff one of the request user's groups is named exactly `moderators` |
| `Permissions.IsOwnerHasObjectPermission` | users/permissions.py:14-15 | only an authenticated user can pass the owner check |
| `Permissions.AnonymousNotModerator` | users/permissions.py:8 | the anonymous user never passes the moderator check |
| `Permissions.ModeratorDependsOnlyOnGroups` | users/permissions.py:7-8 | two requests whose users have the same groups get the same moderator decision, whatever the views and user ids |
| `Permissions.AddGroupKeepsModerator` | users/permissions.py:8 | joining any group never takes the moderator permission away |
| `Permissions.AddModeratorGroupGrants` | users/permissions.py:8 | joining a group named `moderators` grants the moderator permission |
| `Permissions.OtherGroupLeavesModeratorUnchanged` | users/permissions.py:8 | joining or leaving a group with another name leaves the moderator decision as it was |
| `Permissions.IsOwnerExactly` | users/permissions.py:14-15 | the owner check holds iff the user is authenticated and its primary key is the object's owner id |
| `Permissions.OwnerIsUnique` | users/permissions.py:15 | two requests that both pass the owner check on one object come from the same account |
| `Permissions.ModeratorNotOwnerDenied` | users/permissions.py:14-15 | a moderator who is not the owner fails the owner check |
| `Permissions.OwnerIgnoresGroups` | users/permissions.py:14-15 | changing an account's groups never changes the owner decision |

## Left out

- Stripe helpers `create_stripe_product`, `create_stripe_price` and `create_checkout_session` (users/services.py:14-35), and setting the API key (users/services.py:4): network calls into a foreign SDK.
- Floating-point amounts given to `convert_usd_to_rub`: binary float rounding is not modelled. Amounts are exact integers or decimal fractions.
- Services.ConvertUsdToRub: treats a `Decimal` product as exact. Python's default decimal context rounds `amount * 95` to 28 significant digits, so the product is exact only when that coefficient fits in 28 digits; for two-digit amounts that means below about 10^24 dollars, but an amount with many fraction digits can exceed it near one dollar, and then the model can be one kopeck off.
- DRF's inherited defaults are not part of this model. `BasePermission.has_object_permission` (for `IsModerator`) and `BasePermission.has_permission` (for `IsOwner`) are framework code that the source does not show.
- `IsOwnerOrModeratorWithRestrictions` is imported by users/views.py:7 but is not defined in users/permissions.py, so it has no behaviour to model.
- Subscription toggle: lms/urls.py:7 imports `SubscriptionToggleAPIView`, but no such view and no `Subscription` model exist in these files.
- The owner/moderator rules for courses and lessons: lms/views.py sets no permission classes and lms/models.py declares no `owner` field, so there is no implementation to model.
- ORM schema declarations (lms/models.py, users/models.py), views, viewsets and routers, serializers, the admin and the group-creation command: framework wiring and database or console I/O, with no self-contained logic.
