# Navigation highlighting and email normalisation

This project is a Dafny model of the two pieces of logic in the application
`personalProject1/myapp`, a small Django community site:

* the `active` template tag (`templatetags/nav_active.py`), which decides
  whether a navigation link gets the CSS class `"active"`. It is given the
  template context's request, if there is one, and either a url name or a
  path. An argument beginning with `/` is tested as a prefix of the request
  path. Any other argument is compared with the url name of the request's
  resolver match. Everything else yields `""`;
* `RegistrationForm.clean_email` (`forms.py`), which normalises the submitted
  email to `email.strip().lower()`, with a missing value read as `""`.

Both are pure, so both are modelled as functions, with lemmas about them.

* `wrappers.dfy` holds the `Option` type. It stands for Python's `None` versus
  a present value.
* `nav_active.dfy` (module `NavActive`) models the request as
  `Option<Request>`. A `Request` carries a `path` and an optional resolver
  match, and the resolver match carries an optional url name. The tag is
  `Active(request, nameOrPath)`. Python's `str.startswith` is `StartsWith`.
* `forms.dfy` (module `Forms`) models the normaliser. `str.strip()` is
  `Strip`, written as CPython computes it: a forward scan over leading
  whitespace (`SkipSpaceForward`), then a backward scan over trailing
  whitespace that never goes below the first scan's stopping point
  (`SkipSpaceBackward`), then a slice. Whitespace is the set Python's
  `str.isspace` accepts (`IsSpace`). The independent description of trimming
  is `IsTrimOf`: a slice with only whitespace on either side and none at its
  own edges. `Strip` is shown to produce it, and it is shown to be unique.
  `str.lower()` is `Lower`, and `clean_email` is `CleanEmail`.

The application has no other logic to model: it holds no leaderboard or
login code, and `views.py` only renders templates (`members` at lines 10-11
included).

## Model

| member | source | states |
|---|---|---|
| `NavActive.StartsWith` | personalProject1/myapp/templatetags/nav_active.py:20-21 | `s.startswith(prefix)` holds exactly when `prefix` is no longer than `s` and equals the first `|prefix|` characters of `s` |
| `NavActive.Active` | personalProject1/myapp/templatetags/nav_active.py:15-27 | the tag's result is always exactly `"active"` or `""` |
| `NavActive.NoRequestIsInactive` | personalProject1/myapp/templatetags/nav_active.py:15-17 | with no request in the context the result is `""`, whatever the argument |
| `NavActive.PathArgumentActiveIffPrefix` | personalProject1/myapp/templatetags/nav_active.py:20-21 | for an argument beginning with `/`, the result is `"active"` if and only if the argument is a prefix of the request path |
| `NavActive.PathArgumentIgnoresResolver` | personalProject1/myapp/templatetags/nav_active.py:20-21 | for an argument beginning with `/`, the result is the same whatever the resolver match and its url name |
| `NavActive.NameArgumentActiveIffUrlName` | personalProject1/myapp/templatetags/nav_active.py:22-24 | for any other argument, the result is `"active"` if and only if a resolver match is present and its url name is set and equals the argument |
| `NavActive.NameArgumentIgnoresPath` | personalProject1/myapp/templatetags/nav_active.py:22-24 | for an argument not beginning with `/`, the request path does not affect the result |
| `NavActive.NameArgumentWithoutResolverIsInactive` | personalProject1/myapp/templatetags/nav_active.py:22-27 | for an argument not beginning with `/` and a request without a resolver match, the result is `""` |
| `NavActive.RootIsActiveForSlashPaths` | personalProject1/myapp/templatetags/nav_active.py:20-21 | the argument `"/"` is active exactly for requests whose path begins with `/` |
| `NavActive.PathPrefixOfActiveIsActive` | personalProject1/myapp/templatetags/nav_active.py:20-21 | if a path argument is active, every prefix of it that still begins with `/` is active for the same request |
| `Forms.IsSpace` | personalProject1/myapp/forms.py:24 | the characters `strip()` removes are those of Python's `str.isspace`; among ASCII characters exactly the blank, tab, line feed, vertical tab, form feed, carriage return and the separators `\x1c`-`\x1f`, and none of them is a capital letter |
| `Forms.ToLowerChar` | personalProject1/myapp/forms.py:24 | one character of `lower()`: an ASCII capital becomes the matching small letter, every other character is unchanged, the result is never a capital, and whitespace stays whitespace |
| `Forms.Lower` | personalProject1/myapp/forms.py:24 | `lower()` keeps the length and lowers each character in its place, so the result has no capital letter |
| `Forms.SkipSpaceForward` | personalProject1/myapp/forms.py:24 | the forward scan of `strip()` stops at the first non-whitespace position at or after its start (or at the end), and everything it passed is whitespace |
| `Forms.SkipSpaceBackward` | personalProject1/myapp/forms.py:24 | the backward scan of `strip()` stops, not below its lower bound, just after the last non-whitespace character, and everything it passed is whitespace |
| `Forms.Strip` | personalProject1/myapp/forms.py:24 | `strip()` returns a trim of its input: a slice with only whitespace before and after it and no whitespace at its own ends |
| `Forms.TrimCutIsStrip` | personalProject1/myapp/forms.py:24 | every trim cut of a string yields exactly `strip()`'s result, because the two scans can stop only at the ends of the cut's middle part |
| `Forms.TrimIsUnique` | personalProject1/myapp/forms.py:24 | a string has only one trim, and `strip()` returns it |
| `Forms.StripKeepsTrimmed` | personalProject1/myapp/forms.py:24 | a string without leading or trailing whitespace is unchanged by `strip()` |
| `Forms.StripIgnoresEdgeSpace` | personalProject1/myapp/forms.py:24 | adding whitespace before and after a string does not change its `strip()` |
| `Forms.LowerKeepsLowered` | personalProject1/myapp/forms.py:24 | `lower()` leaves a string without capitals unchanged |
| `Forms.StripLowerCommute` | personalProject1/myapp/forms.py:24 | stripping and lowering commute |
| `Forms.Submitted` | personalProject1/myapp/forms.py:23 | `cleaned_data.get("email") or ""` is empty exactly when the email is missing or empty, and otherwise is the submitted string |
| `Forms.CleanEmail` | personalProject1/myapp/forms.py:22-24 | the cleaned email is no longer than the submission, has no leading or trailing whitespace and contains no capital letter |
| `Forms.MissingEmailCleansToEmpty` | personalProject1/myapp/forms.py:23 | a missing or empty submission cleans to `""` |
| `Forms.CleanEmailLowersTheMiddle` | personalProject1/myapp/forms.py:24 | the submission has a trim cut (a middle part with only whitespace before and after it and none at its own ends), and the cleaned email equals the lowering of the middle part of every trim cut. Interior characters, interior blanks included, keep their order and number |
| `Forms.CleanedFormIsFixed` | personalProject1/myapp/forms.py:24 | a trimmed email with no capitals cleans to itself |
| `Forms.CleanEmailIsIdempotent` | personalProject1/myapp/forms.py:24 | cleaning a cleaned email returns it unchanged |
| `Forms.EdgeSpaceIsIgnored` | personalProject1/myapp/forms.py:24 | whitespace added around a submission does not change the cleaned email |
| `Forms.CaseIsIgnored` | personalProject1/myapp/forms.py:24 | submissions that lower to the same string clean to the same email |
| `Forms.CaseAndEdgeSpaceAreIgnored` | personalProject1/myapp/forms.py:24 | submissions that differ only in letter case and in surrounding whitespace clean to the same email |
| `Forms.CleanEmailExample` | personalProject1/myapp/forms.py:22-24 | `"  Foo@BAR.com "` cleans to `"foo@bar.com"` |

## Left out

- Forms.ToLowerChar: lowers only the ASCII capitals `A`-`Z`. Python's `str.lower()` also lowers non-ASCII letters, and some of them change length (`"İ".lower()` has two code points). Every non-ASCII character is left unchanged here; this also makes `Forms.CleanEmail`'s length bound an artefact of the ASCII model.
- Forms.CleanEmail: the value read is a string or absent. Django's `EmailField` has already validated and stripped it before `clean_email` runs; that validation is Django's and is not part of this model. Python's `or ""` also replaces other falsy values, which a string field cannot hold.
- NavActive.Active: the argument is taken to be a string, so `str(name_or_path)` is the identity. A non-string argument rendered through `str()`, and the `except Exception` path (a request object without a `path` attribute), are not modelled: in the model a request always has a path, and no step can raise.
- NavActive.Active: `if not request` holds only for an absent request. Django's request objects are always truthy; a falsy non-request value put into the context under `"request"` is not modelled.
- The Django template context, the request object and the resolver match are reduced to the fields the tag reads: `path` and `url_name`.
- `RegistrationForm`'s field and widget configuration, and `TopicForm` and `PostForm` (`forms.py:5-20`, `27-37`), are declarative `ModelForm` wiring; Django does their validation.
- `models.py`, `admin.py`, `urls.py` and `views.py` are declarative schema, admin configuration, a routing table and template rendering; they hold no logic to model. The uniqueness, choices and cascade deletion declared in `models.py` are enforced by Django and the database.
