# clip-parse: a verified model of the clip-name inference

clip-parse reads a list of animation clips whose names follow one convention. 
The convention is `A_<action>_<char>?_?<clip>_?<alternate>?-?(<nextName>?_?<nextClip>)?`.
A concrete name is `A_intro_01-02`: clip 01 of the action `intro`, which transitions into clip 02.
From the names alone it infers three relations for every clip:

- the **next** clip: the successor index, or a transition clip that leads out of this one;
- the **alternate** clips: the same stem with another letter;
- the **previous** clip: the predecessor index.

This project models that engine (`main.go`) and proves what its rules promise.

The model has six modules:

- `Wrappers`: the `Option` type.
- `Numbers`: the program's `atoi` on the two-digit clip capture, and Go's `%02d` formatting of the incremented or decremented index. `%02d` yields `"-1"` and `"100"` at the two edges.
- `ClipName`: a hand-written recogniser for the name pattern. Go picks the leftmost start position, and every optional part after the clip digits is taken greedily. So the matching is a deterministic scan that consumes the name from the front. `Render` gives the matched text `match[0]` back from the captured `Shape`. The two directions are proved:
  - everything the scan accepts is canonical and occurs in the name (`ShapeAtSound`);
  - every canonical shape is recognised from its own text, followed by any text that stops the match (`RecogniseRender`);
  - a name that starts with a well-formed head is recognised with that head, whatever follows (`RecogniseHead`).
- `Lookup`: the three pattern shapes the rules build (`^X-`, `^X_?A?$`, `^X_?[A-Z]?$`), written as predicates on a name. The lookups `findAnimationByName` and `filterAnimations` are modelled as "first matching position" and "all matching positions" on the list of names. A nil element is `None` there.
- `Inference`: the rules as functions of one clip's name and the names of the list: `NextOf`, `TransitionNext`, `AlternatesOf` and `PreviousOf`. Lemmas state the documented behaviour:
  - a rejected name derives nothing;
  - later alternates have no neighbours;
  - transition clips have neither alternates nor a previous clip;
  - a transition out of a clip takes priority over its successor;
  - consecutive indices link to each other;
  - alternates are exactly the family of the stem, in list order and with repetitions;
  - every derived name is listed.
- `Animations`: the `Animation` record as a class. Its name is constant and the three derived fields are mutable. The methods append to, or assign, those fields as the Go methods do. Each is proved to change its field by exactly what the corresponding `Inference` function gives. The two-pass driver `FetchAnimations` is proved for lists that contain nil entries and the same object several times: an object listed `k` times gets its next and alternate lists appended `k` times.

Behaviour of the code worth knowing:

- The alternates of `A_intro_01` include `A_intro_01_A` when that clip is listed. Only the clip's own name is left out (`FirstAlternateIsAlternate`).
- A first alternate written without the underscore, such as `A_intro_01A`, has nothing trimmed. It looks for transitions starting with `A_intro_01A-`, whereas `A_intro_01_A` looks for `A_intro_01-` (`FirstAlternatePrefix`).
- Running the driver again on the same objects appends the derived names again. The derived values depend only on the names, and the names never change.

## Model

| member | source | states |
|---|---|---|
| Numbers.Atoi | main.go:197-200 | the value of a two-digit clip capture, at most 99 |
| Numbers.Decimal | main.go:124 | the decimal spelling used by `%d` is non-empty and all digits |
| Numbers.Format02 | main.go:124-127 | `%02d` gives at least two characters: all digits for a non-negative index, `-` and digits for a negative one |
| Numbers.FormatOfAtoi | main.go:197-200 | formatting the value of a two-digit capture with `%02d` gives the capture back |
| Numbers.AtoiOfFormat | main.go:124-127 | every index 0..99 is formatted as two digits that read back as that index |
| Numbers.FormatOutOfRange | main.go:227-229 | outside 0..99 the formatted index is never two digits; -1 gives "-1" and 100 gives "100" |
| ClipName.LowerRun | main.go:63 | the greedy `[a-z]` run: a prefix of lower-case letters followed by the end or a non-lower-case character |
| ClipName.LowerRunOfWord | main.go:63 | the greedy run over a word followed by a non-letter stops exactly at the end of that word |
| ClipName.ClipOf | main.go:63 | the scan of `[A-Z]?_?\d{2}` after the action; no contract of its own: ClipOfSound and ClipOfRender state what it consumes and that it inverts the head text |
| ClipName.HeadOf | main.go:63 | the scan of the mandatory `A_[a-z]+_…\d{2}`; no contract of its own: HeadOfSound and HeadOfRender |
| ClipName.TargetOf | main.go:63 | the scan of the optional group `([a-z]*_?\d{2})?`; no contract of its own: TargetOfSound and TargetOfRender |
| ClipName.TailOf | main.go:63 | the scan of everything after the clip digits; no contract of its own: TailOfSound and TailOfRender |
| ClipName.ShapeOf | main.go:63 | the whole match at the front of a text; no contract of its own: ShapeOfSound, ShapeOfRender and ShapeOfHead |
| ClipName.ShapeAt | main.go:103 | the match starting at one position of the name; no contract of its own: ShapeAtSound |
| ClipName.Render | main.go:108-111 | the matched text `match[0]` of a shape; no contract of its own: ShapeOfRender and RecogniseRender make the scan its inverse |
| ClipName.OptCharSound | main.go:63 | an optional literal consumes that character or nothing, and skips it only when it is absent |
| ClipName.OptUpperSound | main.go:63 | `[A-Z]?` consumes one upper-case letter or nothing, and skips only when none is there |
| ClipName.ClipOfSound | main.go:63 | the `char`, its optional `_` and the two `clip` digits are what was consumed, with the right character classes |
| ClipName.HeadOfSound | main.go:63 | an accepted head is well formed and the input is its text followed by the rest |
| ClipName.TargetOfSound | main.go:63 | the transition group is well formed and its text is what was consumed; nothing is consumed when the digits are missing |
| ClipName.TailOfSound | main.go:63 | the optional tail is canonical and its text is what was consumed |
| ClipName.ShapeOfSound | main.go:63 | a match at the front of a text is canonical and the text is its rendering followed by the rest |
| ClipName.ShapeAtSound | main.go:63 | a match found at a position is canonical and its text `match[0]` occurs in the name at that position |
| ClipName.Search | main.go:103 | the leftmost position at which the pattern matches, or none when it matches nowhere |
| ClipName.Recognise | main.go:103 | `FindStringSubmatch`: no match means no position matches; otherwise the match starts at the leftmost matching position |
| ClipName.OptCharOf | main.go:63 | the optional-separator step gives back exactly the separator that was rendered |
| ClipName.OptUpperOf | main.go:63 | the `[A-Z]?` step gives back exactly the letter that was rendered |
| ClipName.ClipOfRender | main.go:63 | the char/clip step recovers a well-formed head from its own text |
| ClipName.HeadOfRender | main.go:63 | the head scan recovers a well-formed head from its text, whatever follows |
| ClipName.TargetOfRender | main.go:63 | the group scan recovers a well-formed transition group from its text whatever follows it, and an absent group consumes nothing when the text stops the match |
| ClipName.TailOfRender | main.go:63 | the tail scan recovers a canonical tail from its text and leaves the following text; any text may follow a transition group, otherwise it must stop the match |
| ClipName.ShapeOfRender | main.go:63 | the scan recovers every canonical shape from its text and leaves exactly the text that follows |
| ClipName.RecogniseRender | main.go:103 | a name that is the text of a canonical shape followed by text that stops the match is recognised at position 0 as that shape: the trailing text is ignored |
| ClipName.ShapeOfHead | main.go:63 | whatever follows a well-formed head, a match starts there with that head |
| ClipName.RecogniseHead | main.go:103 | a name that starts with a well-formed head is recognised at position 0 with that head, whatever follows |
| Lookup.MatchingIndices | main.go:183-195 | the positions of the non-nil elements that the pattern accepts: all of them, in increasing order |
| Lookup.FirstMatch | main.go:170-181 | the first position of a non-nil accepted element, or none when no element is accepted |
| Lookup.FindName | main.go:170-181 | the name `findAnimationByName` returns is listed and accepted; none exactly when no element is accepted |
| Lookup.FilterNames | main.go:183-195 | the names `filterAnimations` returns are in list order, and a name is among them exactly when it is listed and accepted |
| Lookup.FilterNamesSnoc | main.go:189-193 | one element more at the end of the list adds its name at the end of the result exactly when it is accepted |
| Lookup.Matches | main.go:176 | `regexp.MatchString` for the three expression shapes; no contract of its own: PrimaryFormNames, AlternateFormNames and TransitionFromNames spell out the names each accepts |
| Lookup.PrimaryFormNames | main.go:134 | `^X_?A?$` accepts exactly X, X_, XA and X_A |
| Lookup.AlternateFormNames | main.go:260 | `^X_?[A-Z]?$` accepts exactly X, X_, X followed by an upper-case letter, and X_ followed by one |
| Lookup.TransitionFromNames | main.go:130 | `^X-` accepts exactly the names that start with X and `-` |
| Lookup.PrimaryIsAlternate | main.go:134 | every name the primary pattern accepts, the alternate pattern accepts too |
| Inference.Parse | main.go:103-111 | the captures of a name are canonical, and there are none exactly when the pattern matches at no position |
| Inference.Stem | main.go:124-127 | the stem `A_<action>[_<char>]_<index>` starts with `A_<action>_` and ends with `_<index>`; StemParses proves it the text of the head it names |
| Inference.SuccessorStem | main.go:124-127 | the stem of the clip after this one; no contract of its own: NeighbourStems states that it names the next index with the same action and `_<char>` segment |
| Inference.PredecessorStem | main.go:227-229 | the stem of the clip before this one; no contract of its own: NeighbourStems states that it names the previous index with the same action and `_<char>` segment |
| Inference.TransitionPrefix | main.go:130 | `match[0]` without a trailing `_A`; no contract of its own: FirstAlternatePrefix states the trim, PlainPrefix and TransitionPriority its use |
| Inference.TransitionNext | main.go:142-167 | a transition clip's next is a listed clip named after its target (`A_<action>[_<char>]_<nextClip>` without a `nextName`, `A_<transitionTo>` with one), and none exactly when no listed clip matches that target |
| Inference.NextOf | main.go:102-140 | one call derives at most one next name, and it is the name of a listed clip |
| Inference.NextOfShape | main.go:113-139 | for a parsed name, at most one next name, which is listed |
| Inference.AlternatesOf | main.go:239-269 | every alternate is the name of a listed clip and is not the clip's own name |
| Inference.AlternatesOfShape | main.go:250-269 | for a parsed name, every alternate is listed and differs from the clip's own name |
| Inference.PreviousOf | main.go:206-237 | the previous name, if any, is the name of a listed clip |
| Inference.PreviousOfShape | main.go:217-236 | for a parsed name, the previous name, if any, is listed |
| Inference.TrimSuffix | main.go:130 | `strings.TrimSuffix` removes the suffix exactly when the text ends with it |
| Inference.ToSeq | main.go:137-139 | one `append` of a found clip adds at most one name, and none when nothing was found |
| Inference.Without | main.go:265-267 | the names other than the clip's own, never more than the input; WithoutAppend proves that it keeps order and repetitions |
| Inference.WithoutAppend | main.go:261-268 | leaving one name out of a concatenation is leaving it out of each part: what is kept stays in order, with its repetitions |
| Inference.WithoutFilter | main.go:255-268 | leaving the clip's own name out of the accepted names is accepting from the list with that name blanked out |
| Inference.TransitionToPresent | main.go:119 | `transitionTo` is non-empty exactly when the transition group matched |
| Inference.RejectedNameDerivesNothing | main.go:103-106 | a name the pattern rejects gets no next, no alternates and no previous clip |
| Inference.NonPrimaryHasNoNeighbours | main.go:113-116 | a clip with an alternate letter other than `A` gets no next and no previous clip |
| Inference.TransitionClipRules | main.go:142-167 | a transition clip gets no alternates or previous; its next is the first clip named `A_<action>[_<char>]_<nextClip>` without a `nextName` and `A_<transitionTo>` with one, each with an optional `_` and `A` |
| Inference.SuccessorFamilyNoHyphen | main.go:124-127 | no name that the successor's pattern accepts contains `-` |
| Inference.TransitionPriority | main.go:129-135 | when a clip named `match[0]` (less a trailing `_A`) + `-` is listed, next is exactly one such listed clip and no successor |
| Inference.ParsePlain | main.go:124 | a plain name `A_x_NN` is the text of a canonical shape with action x and clip NN, and parses as that shape |
| Inference.PlainStems | main.go:124-130 | for `A_x_NN` with NN < 99: nothing is trimmed from its text, its successor stem is `A_x_<NN+1>`, and the predecessor stem of `A_x_<NN+1>` is `A_x_NN` |
| Inference.NeighbourStems | main.go:124-127 | for any head, with or without a `_<char>` segment: when clip e reads as one more than its clip d, the successor stem names clip e and the predecessor stem of the same head at e names clip d |
| Inference.FirstAlternatePrefix | main.go:129-130 | the first alternate `<head>_A` and the plain clip `<head>` look up the same transition prefix `<head>`; `<head>A`, without the `_`, keeps its `A` |
| Inference.ConsecutiveIndices | main.go:124-135 | for `A_x_NN` and `A_x_MM` with MM = NN+1 and no `A_x_NN-`: next of the first is the first clip accepted by `^A_x_MM_?A?$` (so `[A_x_MM]` when that is the only one); previous of the second is the first clip accepted by `^A_x_NN_?A?$` |
| Inference.AlternatesAreFamily | main.go:255-269 | a non-transition clip's alternates are exactly the listed names `^<stem>_?[A-Z]?$` accepts, other than its own |
| Inference.AlternatesInListOrder | main.go:255-269 | a non-transition clip's alternates are, in list order and once per listed clip, the names of the clips `^<stem>_?[A-Z]?$` accepts whose name is not its own; exactly those positions are used |
| Inference.FirstAlternateIsAlternate | main.go:260-268 | the listed first alternate `A_x_NN_A` is an alternate of `A_x_NN` |
| Inference.HyphenIsOptional | main.go:63 | the hyphen is optional: every name `A_x_NN_y_MM` (such as `A_intro_01_relax_01`) parses with no hyphen and `transitionTo` `y_MM` |
| Inference.ParseName | main.go:103-111 | a name that is the text of a canonical shape, followed by text that stops the match, has that shape as its captures |
| Inference.ParseHead | main.go:103-111 | a name that starts with a well-formed head parses, with that head, whatever follows |
| Inference.TrailingTextIgnored | main.go:103-153 | text after a transition group is ignored: `A_x_NN-MM<rest>` (such as `A_intro_01-02 (1)`) parses as the transition clip and its next is the first clip `^A_x_MM_?A?$` accepts |
| Inference.StemParses | main.go:124-127 | the stem built from a well-formed head's captures parses back to exactly those captures |
| Animations.Animation.constructor | main.go:38 | a clip is created with its name and nothing derived |
| Animations.Animation.GetNextAnimation | main.go:102-140 | appends exactly what `NextOf` derives, and changes nothing else |
| Animations.Animation.FindSuccessor | main.go:124-139 | for a plain primary clip, appends exactly what `NextOfShape` derives: the first clip transitioning out of it, else the first listed successor |
| Animations.Animation.FindTransition | main.go:142-167 | appends exactly the target clip found by `TransitionNext`, if there is one |
| Animations.Animation.GetAlternateAnimation | main.go:239-269 | appends exactly what `AlternatesOf` derives, in list order |
| Animations.Animation.AppendOthers | main.go:261-269 | appends every found name except the clip's own, in order |
| Animations.Animation.GetPreviousAnimation | main.go:206-237 | sets the previous clip to what `PreviousOf` derives when it finds one, and leaves it otherwise |
| Animations.Names | main.go:172-175 | the view of the list the lookups see: the name of each element, `None` for a nil one |
| Animations.FindAnimationByName | main.go:170-181 | returns the element at the first accepted position, nil exactly when there is none |
| Animations.FilterAnimations | main.go:183-195 | returns exactly the accepted non-nil elements, in list order |
| Animations.AcceptedAtMatchingIndices | main.go:183-195 | the elements the loop of `filterAnimations` collects are exactly those at the accepted positions, in order |
| Animations.Repeat | main.go:81-88 | `k` calls on one object append the derived names `k` times, and only those names |
| Animations.FetchAnimations | main.go:80-98 | returns the same list; every listed clip gets its next and alternates appended once per occurrence, and its previous set as `PreviousOf` derives |
| Animations.FetchNextAndAlternates | main.go:81-88 | the first pass appends next and alternates once per occurrence and leaves previous unchanged |
| Animations.FetchPrevious | main.go:90-95 | the second pass sets previous as `PreviousOf` derives and leaves the appended lists unchanged |

## Left out

- `readFromFolder` (main.go:30-42) walks a directory. This is file-system I/O, so the model takes the list of clips as its input instead.
- `main` (main.go:20-28) serialises the result to JSON and prints it; it is left out as output only.
- Go's general `regexp` engine and `regexp.MustCompile` are not modelled. The one name pattern is a hand-written scan, and the lookup expressions are the three predicates of `Lookup`. Every expression the rules build has one of those three shapes.
- `strconv.Atoi` errors are not modelled: `Numbers.Atoi` requires two ASCII digits, and the recogniser never passes anything else.
- The captures are not gathered into a map keyed by group names (main.go:108-111); the rules read the fields of `Shape` instead.
- Animations.Animation.GetAlternateAnimation: the nil check at main.go:262 is not modelled. The elements `filterAnimations` returns are never nil, which is why `FilterAnimations` returns `seq<Animation>`.
- Go's `int` is 64 bits wide; the model uses unbounded integers because every index lies in -1..100.
- Inference.ConsecutiveIndices: next of the first clip is stated as the first clip that `^A_x_MM_?A?$` accepts, and as `[A_x_MM]` only when that clip is the only one accepted. If `A_x_MM_`, `A_x_MMA` or `A_x_MM_A` is listed before it, the code picks that one.
- ClipName.RecogniseRender: without a transition group, the text after the match must start outside `[A-Za-z0-9_-]`. For other trailing text, `RecogniseHead` states only that the head is recovered, not which tail is captured.
