# Safha route gate and formatting helpers, modelled in Dafny

Safha is a volunteer-matching web application. This project models the two
parts of its code whose behaviour can be stated exactly:

- the formatting helpers of `src/lib/utils.ts`: `truncate`, `getInitials`,
  `formatRelativeTime` (from a signed distance in seconds) and the magnitude
  suffix of `formatCompactNumber` (module `Utils`, file `utils.dfy`);
- the request middleware of `src/middleware.ts`: which paths are sign-in
  pages and which are protected, and whether a request is redirected to the
  sign-in page, redirected to the dashboard, or passed through (module
  `Middleware`, file `middleware.dfy`).

Shared text helpers live in module `Strings` (`strings.dfy`): the
`startsWith` test, decimal rendering of integers with its parser, and ASCII
upper-casing.

Modelling choices:

- A string is a sequence of Unicode scalar values, since that is what a
  Dafny `char` is. JavaScript counts UTF-16 code units instead. The two agree
  on every character of the Basic Multilingual Plane. A character outside it
  counts once here and twice in JavaScript (see "Left out").
- `toUpperCase` changes only the ASCII letters `a`–`z`. Every other
  character is kept as it is.
- `text.slice(0, end)` follows JavaScript. A negative `end` counts back from
  the end of the string, and the index is clamped to the string. So
  `Truncate` with a limit below 3 keeps all but `3 - maxLength` characters.
  It can then return text longer than its input: `truncate("abcdef", 2)` is
  `"abcde..."`.
- `split(' ')` keeps empty pieces. `word[0]` of an empty piece is
  `undefined`, and `undefined` joins as the empty string, so repeated spaces
  add nothing to the initials.
- `formatRelativeTime` is a method with the source's loop over the six
  intervals. It is proved equal to `RelativeTime`, which picks the unit from
  a chain of thresholds instead. The clock reads that produce the distance
  stay outside the model: the distance is a parameter.
- `formatCompactNumber` takes an integer. The rendering of the scaled value
  (`toFixed(1)` and the removal of a trailing `.0`) is a parameter `scaled`.
  The model fixes the thresholds, the suffixes and the plain rendering below
  one thousand.
- The middleware's session lookup becomes a boolean `authenticated`: whether
  `getUser` returned a user. The request URL is reduced to its path and its
  list of query parameters. `searchParams.set` follows the URL Standard
  (section "URLSearchParams", the `set(name, value)` method): the first
  parameter with that name takes the value, later ones are removed, and if
  there is none a new parameter is appended.
- The prefix tests are plain `startsWith`, as in the source. `/organizations`
  and `/orgfoo` are protected, `/loginx` is a sign-in page, and
  `/opportunities` is neither.

## Model

| member | source | states |
|---|---|---|
| `Strings.NatToString` | src/lib/utils.ts:43-44 | a count becomes a non-empty string of digits with no leading zero; one digit exactly for numbers below ten |
| `Strings.ParseNatToString` | src/lib/utils.ts:43-44 | reading the digits back gives the number, so the rendered count is the count |
| `Strings.NatToStringInjective` | src/lib/utils.ts:43-44 | different counts give different renderings |
| `Strings.IntToString` | src/lib/utils.ts:61 | `num.toString()` on an integer: a minus sign exactly for negative numbers, then digits, in canonical form (no leading zero, no "-0") |
| `Strings.ParseIntToString` | src/lib/utils.ts:61 | reading the rendering back gives the integer |
| `Strings.StartsWith` | src/middleware.ts:42-47 | `startsWith`: the prefix fits in the string and matches it position by position |
| `Strings.StartsWithExtends` | src/middleware.ts:42-47 | a string that starts with a prefix still does after more text is appended |
| `Strings.Abs` | src/lib/utils.ts:27 | `Math.abs`: the result is non-negative and is the argument or its negation |
| `Strings.UpperChar` | src/lib/utils.ts:91 | upper-casing one character: lower-case ASCII letters move down by 32; everything else is kept; the result is never lower case |
| `Strings.Upper` | src/lib/utils.ts:91 | `toUpperCase` keeps the length and upper-cases each character separately |
| `Strings.UpperIdempotent` | src/lib/utils.ts:91 | upper-casing twice is upper-casing once |
| `Strings.UpperPrefix` | src/lib/utils.ts:91-92 | upper-casing then taking a prefix equals taking the prefix then upper-casing |
| `Utils.SliceEnd` | src/lib/utils.ts:80 | the end index `slice(0, end)` uses always lies inside the string |
| `Utils.Truncate` | src/lib/utils.ts:78-81 | text that fits comes back unchanged; longer text ends in "..." after a prefix of the input; with a limit of at least 3 the result is exactly the limit long; below 3 it is the input minus `3 - maxLength` characters, plus "..." |
| `Utils.TruncateIdempotent` | src/lib/utils.ts:78-81 | with a limit of at least 3, truncating never lengthens the text, yields text within the limit, and truncating again changes nothing |
| `Utils.TruncateShortLimit` | src/lib/utils.ts:80 | with limit 2, "abcdef" becomes "abcde..."; with limit -10 it becomes "..." |
| `Utils.Split` | src/lib/utils.ts:88 | `split(' ')` gives at least one piece, and no piece holds a space |
| `Utils.JoinSplit` | src/lib/utils.ts:88 | joining the pieces with single spaces gives back the input |
| `Utils.SplitJoin` | src/lib/utils.ts:88 | splitting space-free words joined by spaces gives back the words |
| `Utils.SplitWord` | src/lib/utils.ts:88 | a string without spaces splits into itself alone |
| `Utils.FirstChars` | src/lib/utils.ts:89-90 | `map(word => word[0]).join('')`: at most one character per word, and a non-empty first word gives its first character first (the exact content, with empty words contributing nothing, is stated by `FirstCharsSplit`) |
| `Utils.FirstCharsSplit` | src/lib/utils.ts:87-90 | the first characters of the pieces, joined, are exactly the characters that open a word, in order |
| `Utils.WordStartsOpenWords` | src/lib/utils.ts:87-90 | every collected character is a non-space character at the start or right after a space |
| `Utils.WordStartsComplete` | src/lib/utils.ts:87-90 | every non-space character at the start or right after a space is collected |
| `Utils.WordStartsNoSpace` | src/lib/utils.ts:89 | no collected character is a space |
| `Utils.GetInitials` | src/lib/utils.ts:86-93 | at most 2 characters, as many as there are non-empty words up to 2, and the k-th is the upper-cased first character of the k-th non-empty word |
| `Utils.GetInitialsUpper` | src/lib/utils.ts:91-92 | initials are never lower case and never a space |
| `Utils.GetInitialsOfWords` | src/lib/utils.ts:86-93 | for space-free words joined by spaces, the initials are the upper-cased first characters of the words, cut to 2 |
| `Utils.GetInitialsTwoWords` | src/lib/utils.ts:86-93 | two non-empty words give the upper-cased first letter of each |
| `Utils.GetInitialsExamples` | src/lib/utils.ts:84 | "John Doe" gives "JD" and the empty name gives "" |
| `Utils.IntervalsDescending` | src/lib/utils.ts:29-36 | the interval table has six units, strictly largest first, each a whole number of minutes, ending with the minute of 60 seconds |
| `Utils.UnitFor` | src/lib/utils.ts:29-40 | the chosen unit is one of the six named intervals |
| `Utils.UnitForFirstFit` | src/lib/utils.ts:38-40 | the threshold chain picks exactly the first interval, largest first, that the distance reaches |
| `Utils.DivAtLeastOne` | src/lib/utils.ts:39-40 | `Math.floor(absDiff / seconds) >= 1` holds exactly when the distance reaches the interval |
| `Utils.UnitLabel` | src/lib/utils.ts:41 | the label starts with the interval's name; it is the bare name exactly when the count is 1, and ends in "s" exactly when it is not |
| `Utils.Phrase` | src/lib/utils.ts:42-44 | the past form starts with a digit and ends in " <label> ago"; the future form starts with "in " and ends in " <label>"; neither is "just now" |
| `Utils.Count` | src/lib/utils.ts:39 | `Math.floor(absDiff / interval.seconds)` for the chosen unit: the count times the unit fits into the distance, one more does not |
| `Utils.RelativeTime` | src/lib/utils.ts:38-48 | "just now" exactly when the distance is under 60 seconds in either direction; a past distance of a minute or more reads "<digits>… ago", a future one "in …" |
| `Utils.FormatRelativeTime` | src/lib/utils.ts:27-48 | the loop over the intervals, with its early return and its "just now" fall-through, returns `RelativeTime` of the distance |
| `Utils.ChosenUnit` | src/lib/utils.ts:38-40 | the chosen unit counts at least one, every larger unit counts zero, and the count stays below one of the next larger unit |
| `Utils.Tense` | src/lib/utils.ts:42-44 | a future distance reads "in …", the past reads "… ago", and a distance and its negation share count and unit |
| `Utils.PluralIff` | src/lib/utils.ts:41 | the label takes an "s" exactly when the count is not 1 |
| `Utils.PhrasePlural` | src/lib/utils.ts:41-44 | in either tense, the phrase shows the plural "s" exactly when the count is not 1 |
| `Utils.RelativeTimeExamples` | src/lib/utils.ts:38-48 | 59 gives "just now", -90 gives "1 minute ago", 7200 gives "in 2 hours" |
| `Utils.FormatCompactNumber` | src/lib/utils.ts:54-62 | below 1000 the result is `IntToString` of the number, the canonical decimal rendering, and reads back as the number; from 1000 it ends in "K"; from 1,000,000 it ends in "M" |
| `Utils.CompactSuffixIff` | src/lib/utils.ts:55-61 | whatever the scaled rendering, the last character is "M" exactly from a million up, "K" exactly from a thousand to below a million, and a digit exactly below a thousand |
| `Middleware.IsAuthRoute` | src/middleware.ts:42-43 | a sign-in path is at least 6 characters long and starts with "/" followed by "l" or "s" |
| `Middleware.IsProtectedRoute` | src/middleware.ts:44-47 | a protected path is at least 4 characters long and starts with "/" followed by "d", "v", "o" or "a" |
| `Middleware.RouteClassExtends` | src/middleware.ts:42-47 | appending any text to a sign-in or protected path keeps its class, so "/orgfoo" is protected like "/org" |
| `Middleware.PrefixAt` | src/middleware.ts:42-47 | a path that starts with a prefix has the prefix's characters at those positions |
| `Middleware.RoutesDisjoint` | src/middleware.ts:42-47 | no path is both a sign-in page and a protected page |
| `Middleware.RouteExamples` | src/middleware.ts:42-47 | "/organizations" and "/orgfoo" are protected; "/loginx" and "/signup/confirm" are sign-in pages; "/opportunities" and "/" are neither; "/Dashboard" is not protected |
| `Middleware.Decide` | src/middleware.ts:50-64 | sign-in redirect exactly for a protected path without a user; dashboard redirect exactly for a sign-in path with a user; pass-through in every other case |
| `Middleware.DecideRespectsSession` | src/middleware.ts:50-62 | a signed-in user is never sent to the sign-in page; a visitor is never sent to the dashboard |
| `Middleware.Without` | src/middleware.ts:53 | removing a name leaves no parameter of that name and never adds parameters |
| `Middleware.Get` | src/middleware.ts:53 | `get` finds nothing exactly when no parameter has the name |
| `Middleware.WithoutCount` | src/middleware.ts:53 | after removal the name occurs zero times |
| `Middleware.WithoutIdempotent` | src/middleware.ts:53 | removing a name twice is removing it once |
| `Middleware.NoOccurrencesWithout` | src/middleware.ts:53 | removing a name that does not occur changes nothing |
| `Middleware.FirstIndex` | src/middleware.ts:53 | the position of the first parameter with the name: no earlier parameter has it, and it equals the length exactly when the name is absent |
| `Middleware.Set` | src/middleware.ts:53 | `searchParams.set` returns at least one parameter, at most one more than before, and the new pair is among them |
| `Middleware.SetPosition` | src/middleware.ts:53 | the new pair takes the place of the first parameter with that name (or goes last when there is none); the parameters before it are untouched and the later ones keep their order, minus those with the name |
| `Middleware.SetPositionStep` | src/middleware.ts:53 | the placement carries over when a parameter with another name is put in front |
| `Middleware.SetSpec` | src/middleware.ts:53 | after `set`, the name occurs exactly once with the new value, and all other parameters are kept in order |
| `Middleware.SetWhenSingle` | src/middleware.ts:53 | `set` with the value a name already holds, once, changes nothing |
| `Middleware.SetIdempotent` | src/middleware.ts:53 | setting the same parameter twice is setting it once |
| `Middleware.Respond` | src/middleware.ts:49-64 | the request passes exactly when the decision is pass-through; every redirect goes to "/login" or "/dashboard" |
| `Middleware.LoginRedirect` | src/middleware.ts:50-54 | a visitor on a protected path goes to "/login"; `redirectTo` occurs once and names the requested path; the other query parameters are kept in order |
| `Middleware.DashboardRedirect` | src/middleware.ts:58-61 | a signed-in user on a sign-in path goes to "/dashboard" with the query unchanged |
| `Middleware.PassThroughOtherwise` | src/middleware.ts:64 | every other combination of path and session passes through |
| `Middleware.OnlyPathMatters` | src/middleware.ts:37-64 | two requests with the same path and session get the same kind of response and the same redirect path, whatever their queries |
| `Middleware.NoRedirectLoop` | src/middleware.ts:50-61 | the target of a redirect passes through for the same session, so redirects never chain |

## Left out

- `cn` (src/lib/utils.ts:16-18): it only passes its arguments to the external `clsx` library.
- `formatHours` (src/lib/utils.ts:67-73): floating-point rounding and `toFixed` rendering.
- `delay` (src/lib/utils.ts:99-101): a timer.
- The clock reads and the millisecond-to-second floor in `formatRelativeTime` (src/lib/utils.ts:24-26): they are clock input, so the model takes the signed distance in seconds as its parameter.
- `Truncate`: a character outside the Basic Multilingual Plane (an emoji, say) counts as one character here but as two UTF-16 code units in JavaScript. So the model does not capture a cut that splits such a character into a lone surrogate, nor the longer length JavaScript sees.
- `GetInitials`: for a word that starts with a character outside the Basic Multilingual Plane, JavaScript's `word[0]` is a lone surrogate, where the model takes the whole character.
- `FormatCompactNumber`: does not model the mantissa text, `(num / divisor).toFixed(1)` with a trailing `.0` removed. That is floating-point rendering, so it is the parameter `scaled`. Non-integer inputs are not modelled either.
- `Truncate`: `maxLength` is an integer. JavaScript's conversion of a fractional or infinite limit is not modelled.
- Numbers beyond 2^53, where JavaScript's integer arithmetic stops being exact, are not modelled. Dafny integers are unbounded.
- Non-ASCII case mapping in `toUpperCase` (for example one character becoming two) is not modelled.
- The Supabase client set-up, the cookie `getAll`/`setAll` callbacks and the `getUser` call in src/middleware.ts:12-39: they are external session plumbing. Only their result, whether a user was found, enters the model.
- The `config.matcher` pattern (src/middleware.ts:67-78): it is framework routing, not something the middleware itself decides.
- The origin, the fragment and the encoding of the query string in the redirect URL. The clone copies the origin and the fragment unchanged. In the sign-in redirect, `searchParams.set` rewrites the whole query in application/x-www-form-urlencoded form, so `%20` becomes `+` and a bare `flag` becomes `flag=`. The dashboard redirect leaves the query as it was. The model works on decoded parameters and captures neither encoding.
- The registration, capacity and waitlist workflow is not part of this model. None of the modelled files implement it.
- Page components, layout components and the Supabase client constructors: they are rendering and wiring with no logic to state.
