# Waste2Wealth: tag selection and Community tabs, modelled in Dafny

This project models the small pieces of state and string handling inside two
screens of the Waste2Wealth Android app:

- the waste-tagging screen (`TagsScreen`, `TagItem`): the view model's mutable
  list of selected tags, the click that toggles a tag in it, whether a tag is
  drawn as selected, the summary shown in the header ("Mixed Waste" or the
  single tag's first word, with the first tag's icon), and the split of a tag
  name into two display lines at its first space;
- the Community screen (`Community`, `Modifier.vertical()`): the selected tab
  index and the sub-view it dispatches to (Challenges, Clubs, Posts), the
  starting state of the location-permission drawer, and the integer
  arithmetic that swaps a child's size and re-centres it for rotated text.

Files:

- `wrappers.dfy`: `Option`, for Kotlin's nullable values and the optional
  second line of a tag name.
- `kotlin_text.dfy` (module `KotlinText`): the Kotlin standard-library
  operations the screens use (`substringBefore`, `substringAfter`,
  `MutableList.remove`) as functions over sequences. `IndexOf` (the first
  index of an element) is the helper behind all three. `Without`, the list
  with every copy of one element dropped, is used to state "the other
  elements keep their order". `contains` and `add` are Dafny's `in` and `+`.
- `tags.dfy` (module `Tags`): `Tag` as a datatype, so `==` is structural
  equality on name and image. This is an assumption of the model: the
  declaration of `Tag` is not part of this model, and `contains` and
  `remove` compare with its `equals`, which is structural for a Kotlin data
  class;
  the pure `Toggled` function and the class `TagSelection` whose `Toggle`
  method updates its `tagsList` field; the summary and the name split.
- `community.dfy` (module `Community`): the tab titles, the view dispatch,
  the class `CommunityTabs` holding `tabIndex`, the drawer's start value and
  `Vertical`.

Kotlin's `substringBefore(" ")`, `substringAfter(" ")` and `contains(" ")` are
modelled with a one-character delimiter, since the screens only split on a
single space. The measured sizes in `Vertical` are non-negative, so Dafny's
`/` agrees with Kotlin's truncating `/`. Because both halves are at most half
of a 32-bit `Int`, their difference cannot overflow, so the model uses
unbounded integers.

## Model

| member | source | states |
|---|---|---|
| KotlinText.SubstringBefore | app/src/main/java/app/waste2wealth/com/tags/TagsScreen.kt:297 | the result contains no delimiter; when the delimiter occurs, the result is the prefix that ends just before its first occurrence; otherwise it is the whole string |
| KotlinText.SubstringAfter | app/src/main/java/app/waste2wealth/com/tags/TagsScreen.kt:308 | when the delimiter occurs, the text before it, the delimiter and the result concatenate back to the string; otherwise the result is the whole string |
| KotlinText.RemoveFirst | app/src/main/java/app/waste2wealth/com/tags/TagsScreen.kt:250 | removing an absent element leaves the list unchanged; removing a present one cuts out exactly its first occurrence, so one copy leaves the multiset of elements |
| KotlinText.RemoveFirstKeepsOthers | app/src/main/java/app/waste2wealth/com/tags/TagsScreen.kt:250 | after removing the first `x`, the elements other than `x` are the same and in the same order |
| Tags.Toggled | app/src/main/java/app/waste2wealth/com/tags/TagsScreen.kt:249-253 | a click on a selected tag removes its first occurrence (the list is the part before it followed by the part after it, so one copy leaves the multiset); on an unselected tag the tag is appended at the end |
| Tags.TagSelection.Toggle | app/src/main/java/app/waste2wealth/com/tags/TagsScreen.kt:249-253 | the new `tagsList` is `Toggled` of the old one; a list without duplicates stays without duplicates, and the clicked tag's selection flips |
| Tags.ToggledLength | app/src/main/java/app/waste2wealth/com/tags/TagsScreen.kt:249-253 | a click shortens the list by one when the tag was selected and lengthens it by one otherwise |
| Tags.ToggledAbsentAppends | app/src/main/java/app/waste2wealth/com/tags/TagsScreen.kt:251-252 | an unselected tag is appended at the end, the rest of the list untouched |
| Tags.ToggledKeepsOthers | app/src/main/java/app/waste2wealth/com/tags/TagsScreen.kt:249-253 | a click leaves every other tag in the list, in the same relative order |
| Tags.ToggledKeepsNoDuplicates | app/src/main/java/app/waste2wealth/com/tags/TagsScreen.kt:249-253 | a click never puts two equal tags into a list that had none |
| Tags.IsSelected | app/src/main/java/app/waste2wealth/com/tags/TagsScreen.kt:256 | a tag is drawn as selected exactly when some position of the selected list holds an equal tag |
| Tags.ToggleFlipsSelection | app/src/main/java/app/waste2wealth/com/tags/TagsScreen.kt:249-256 | on a list without duplicates, a click flips `isSelected` of the clicked tag |
| Tags.ToggleKeepsOthersSelection | app/src/main/java/app/waste2wealth/com/tags/TagsScreen.kt:249-256 | on any list, a click keeps `isSelected` of every tag other than the clicked one |
| Tags.ToggleTwiceAbsent | app/src/main/java/app/waste2wealth/com/tags/TagsScreen.kt:249-253 | two clicks on an unselected tag restore the exact list |
| Tags.ToggleTwicePresent | app/src/main/java/app/waste2wealth/com/tags/TagsScreen.kt:249-253 | two clicks on a selected tag (no duplicates) restore the members, but the tag ends up last: the list becomes `RemoveFirst(tags, tag) + [tag]` |
| Tags.SummaryOf | app/src/main/java/app/waste2wealth/com/tags/TagsScreen.kt:117-143 | the summary is hidden exactly when no tag is selected; otherwise it shows the first tag's icon, "Mixed Waste" for more than one tag, and for one tag the part of its name before the first space (the whole name if there is none) |
| Tags.SummaryExamples | app/src/main/java/app/waste2wealth/com/tags/TagsScreen.kt:139-143 | "Plastic Bottle" alone is summarised as "Plastic"; together with "Glass Jar" as "Mixed Waste", with the first tag's icon |
| Tags.SplitName | app/src/main/java/app/waste2wealth/com/tags/TagsScreen.kt:297-316 | the first line has no space; a second line is shown exactly when the name contains a space, and then first line, a space and second line make the name; otherwise the first line is the whole name |
| Tags.SplitJoined | app/src/main/java/app/waste2wealth/com/tags/TagsScreen.kt:297-308 | a space-free word, a space and any rest split back into that word and that rest |
| Tags.JoinSplit | app/src/main/java/app/waste2wealth/com/tags/TagsScreen.kt:297-308 | joining the displayed lines with a space gives back the tag's name |
| Community.ViewFor | app/src/main/java/app/waste2wealth/com/challenges/ChallengesSection.kt:205-209 | exactly the three indices of the tab titles `TabTitles` (`cList`) select a view, and the view selected is the one named by that tab's title |
| Community.ViewForInjective | app/src/main/java/app/waste2wealth/com/challenges/ChallengesSection.kt:205-209 | different tabs show different views |
| Community.TabSelected | app/src/main/java/app/waste2wealth/com/challenges/ChallengesSection.kt:151 | the tab drawn as selected is one whose view is the view dispatched for the current index |
| Community.ExactlyOneTabSelected | app/src/main/java/app/waste2wealth/com/challenges/ChallengesSection.kt:143-151 | for a valid tab index, the set of tabs drawn as selected is exactly that index |
| Community.CommunityTabs.constructor | app/src/main/java/app/waste2wealth/com/challenges/ChallengesSection.kt:65 | the screen starts on tab 0, which shows Challenges |
| Community.CommunityTabs.ClickTab | app/src/main/java/app/waste2wealth/com/challenges/ChallengesSection.kt:143-152 | a click on a tab of the row sets `tabIndex` to that index, keeps it within the three tabs so a view is always dispatched, and clicking the current tab changes nothing |
| Community.InitialDrawer | app/src/main/java/app/waste2wealth/com/challenges/ChallengesSection.kt:72-74 | the permission drawer starts Closed exactly when all permissions are granted, Open otherwise |
| Community.Vertical | app/src/main/java/app/waste2wealth/com/challenges/ChallengesSection.kt:219-228 | the reported size is the measured size swapped; the x and y offsets are opposite; they centre the child in the reported box (offset plus half the child's extent equals half the box's extent); a square child is not moved |

## Left out

- Compose rendering: layout, modifiers, animations, colours, fonts, images and dp/sp sizes, including the float parameters `fillMaxHeight(0.95f)` and `rotate(±90f)`.
- Tag search, `isSearching` and the seconds counter: they live in `ReportWasteViewModel`, which is not part of this model, so the matching rule is not modelled.
- Tags.TagSelection.constructor: the list starts empty here; where the view model really creates and clears `tagsList` is not part of this model.
- The tag catalogue and its groups: they come from the view model, which is not part of this model; a click only ever passes a tag taken from the list on screen.
- Firebase authentication and the profile image, the accompanist permission request flow and `PermissionDrawer` (only the drawer's start value is modelled, with `allPermissionsGranted` as a parameter), navigation and `println`: external services and I/O.
- `Reference` and `Supplier`: a data-transfer object serialised by Gson and kotlinx.serialization; `Supplier` is not part of this model.
- `Vertical` does not model the Compose constraint solving that produces the measured size; the measured width and height are parameters.
