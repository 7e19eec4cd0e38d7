# Portfolio site core, modelled in Dafny

This project models the behaviour-bearing core of a personal portfolio web
site built with React and Next.js. Each Dafny module follows one source
file or component. It covers:

- the contact-form validation and text formatting utilities;
- the form-submission and active-section hooks;
- the header, footer, language switcher, skills filter and the project
  and experience cards;
- the loading spinner's progress bar and skeleton;
- the cursor, particle, matrix-rain and constellation effects;
- the `setup.js` script that writes `.env.local`.

Where a component keeps React state that its handlers update, the model
is a class: its fields are the state cells and its methods are the
handlers. Pure rendering logic becomes functions, with lemmas about them.
Anything the source gets from outside the program is a parameter of the
model:

- `Math.random()` draws;
- `Date.now()`;
- `window` sizes and scroll offsets;
- bounding rectangles;
- DOM containment tests;
- `readline` answers;
- the `Intl` date formatter.

Timers and listeners become the method calls their callbacks make. Shared
helpers live in `Text` and `Seqs`:

- `Text`: ECMAScript `trim`, ASCII case mapping, split/join on one
  separator, and decimal rendering of naturals;
- `Seqs`: `slice(-n)`, `filter`, and subsequences.

Every proof in the project is checked by the Dafny verifier; nothing was
executed.

## Model

| member | source | states |
|---|---|---|
| Validation.IsEmpty | src/utils/validation.ts:15-17 | a value is empty exactly when it is missing, the empty string, or trims to nothing |
| Validation.IsEmptyIffAllSpace | src/utils/validation.ts:15-17 | a present string is empty exactly when every character is whitespace |
| Validation.IsValidEmailIffShape | src/utils/validation.ts:1-4 | the regex test holds exactly when the string is one non-empty run free of spaces and '@', then '@', another such run, a '.', and a last such run |
| Validation.ValidateContactForm | src/utils/validation.ts:19-51 | name and subject get an error exactly when empty; email gets "required" when empty, else "invalid" exactly when the email test fails; message gets "required" when empty, else "too short" exactly when its trim is under 10 characters; isValid holds exactly when there are no errors |
| Format.FormatDate | src/utils/format.ts:1-14 | 'present' and 'Present' come back unchanged, any other date goes to the locale formatter |
| Format.FormatDateRange | src/utils/format.ts:16-20 | the result starts with the formatted start and " - ", and ends with 'Present' when the end date is missing or empty, else with the formatted end date |
| Format.PresentSpellings | src/utils/format.ts:16-20 | a lower-case 'present' end date stays lower-case, while a missing end date reads 'Present' |
| Format.SliceEnd | src/utils/format.ts:22-25 | the end index of slice(0, maxLength), with negative lengths counted from the end |
| Format.TruncateText | src/utils/format.ts:22-25 | text within the limit is returned unchanged; longer text becomes its trimmed prefix followed by "..." |
| Format.TruncateBounds | src/utils/format.ts:22-25 | a truncated text is at most maxLength + 3 long, ends in "...", and before it is the trimmed first maxLength characters |
| Format.CapitalizeFirstLetter | src/utils/format.ts:27-30 | same length; first character upper-cased, all the others lower-cased |
| Format.CapitalizeIdempotent | src/utils/format.ts:27-30 | capitalising twice is capitalising once |
| FormSubmit.ErrorMessage | src/hooks/useFormSubmit.ts:53 | an Error's message, otherwise 'An error occurred' |
| FormSubmit.SettleResolved | src/hooks/useFormSubmit.ts:36-51 | a resolved submission ends the submitting state, its status is success exactly when the result succeeded, and the message and result are passed through; onSuccess runs only on success; onError never runs |
| FormSubmit.SettleThrown | src/hooks/useFormSubmit.ts:52-67 | a thrown submission gives an error status with the error's message and returns a failed result; onError gets the error exactly when one is given |
| FormSubmit.SuccessCallbackThrowOverwrites | src/hooks/useFormSubmit.ts:39-67 | an onSuccess callback that throws turns a successful submission into an error status and a failed result |
| FormSubmit.SettleAgreesWithStatus | src/hooks/useFormSubmit.ts:36-68 | for every outcome, the returned success flag matches the status and the returned message is the status message |
| FormSubmit.FormSubmitter.constructor | src/hooks/useFormSubmit.ts:24-27 | the form starts idle, not submitting and with no status |
| FormSubmit.FormSubmitter.BeginSubmit | src/hooks/useFormSubmit.ts:31-34 | submitting, with the status cleared |
| FormSubmit.FormSubmitter.CompleteSubmit | src/hooks/useFormSubmit.ts:36-68 | the new state, the return value and the callbacks are those of the settlement |
| FormSubmit.FormSubmitter.Reset | src/hooks/useFormSubmit.ts:73-78 | back to idle |
| ActiveSection.InitialActive | src/hooks/useActiveSection.ts:11 | the first id, or "" when there are none |
| ActiveSection.FindSection | src/hooks/useActiveSection.ts:17-26 | the index of the first section, in list order, whose element exists and whose half-open box contains the probe; None exactly when no section does |
| ActiveSection.ActiveSectionTracker.constructor | src/hooks/useActiveSection.ts:10-11 | the tracker starts on the first id, with the given offset or 100 when none is given |
| ActiveSection.ActiveSectionTracker.HandleScroll | src/hooks/useActiveSection.ts:14-27 | the active section becomes the first section containing scrollY + offset; when there is none, the active section is kept |
| Footer.DisplayName | src/components/templates/Footer.tsx:7-11 | the trimmed fullName if non-empty, else the trimmed name if non-empty, else 'Portfolio'; never empty |
| Footer.DisplayNameTrimmed | src/components/templates/Footer.tsx:11 | the displayed name is its own trim and has no whitespace at either end |
| Footer.BlankFullNameFallsThrough | src/components/templates/Footer.tsx:11 | a whitespace-only fullName acts as a missing one; if the name is blank too, the result is 'Portfolio' |
| Header.LogoLabel | src/components/organisms/Header.tsx:12-15 | "<trimmed name> Logo" when the trimmed name is non-empty, else 'Portfolio Logo' |
| Header.LogoLabelShape | src/components/organisms/Header.tsx:12-15 | every label ends in " Logo", and a whitespace-only name gets the default |
| Header.NavIdsDistinct | src/components/organisms/Header.tsx:128-134 | the five navigation ids are pairwise distinct |
| Header.ExactlyOneActive | src/components/organisms/Header.tsx:205-214 | when the active section is a navigation id, exactly the item with that id is active; otherwise no item is |
| Header.HeaderState.constructor | src/components/organisms/Header.tsx:124-125 | the menu starts closed, and isScrolled is read from the current scroll position |
| Header.HeaderState.Background | src/components/organisms/Header.tsx:185 | the background is opaque exactly when the page is scrolled or the menu is open |
| Header.HeaderState.Toggle | src/components/organisms/Header.tsx:125 | the hamburger button flips the menu |
| Header.HeaderState.MouseDown | src/components/organisms/Header.tsx:141-145 | an outside mousedown closes an open menu when the ref is attached; anything else leaves the menu as it was |
| Header.HeaderState.Scroll | src/components/organisms/Header.tsx:147-151 | any scroll closes the menu, and isScrolled becomes scrollY > 50, so the background is opaque exactly when scrolled |
| Header.HeaderState.DesktopNavigate | src/components/organisms/Header.tsx:162-164 | desktop navigation scrolls to the section and leaves the menu alone |
| Header.HeaderState.MobileNavigate | src/components/organisms/Header.tsx:166-171 | mobile navigation closes the menu and schedules the scroll to the section |
| LoadingSpinner.BarWidth | src/components/atoms/LoadingSpinner.tsx:145 | the width lies in [0, 100]; it equals the progress inside that range, 0 below it and 100 above it |
| LoadingSpinner.BarWidthFacts | src/components/atoms/LoadingSpinner.tsx:145 | the clamp is monotone and idempotent |
| LoadingSpinner.Round | src/components/atoms/LoadingSpinner.tsx:160 | Math.round: the integer within half a unit below and strictly less than half above |
| LoadingSpinner.PercentLabel | src/components/atoms/LoadingSpinner.tsx:160 | the label appears only with showPercentage, and it rounds the unclamped progress |
| LoadingSpinner.LabelAgainstBar | src/components/atoms/LoadingSpinner.tsx:145-160 | in range, the label is within half a point of the bar; outside the range they disagree, e.g. a full bar labelled 150 |
| LoadingSpinner.RowCount | src/components/atoms/LoadingSpinner.tsx:113 | a non-positive line count gives no rows, a positive one that many |
| LoadingSpinner.SkeletonRows | src/components/atoms/LoadingSpinner.tsx:103-117 | one row per line, all with the given width |
| LoadingSpinner.SkeletonShape | src/components/atoms/LoadingSpinner.tsx:103-117 | lines - 1 rows of 16px and then one row of the given height; no rows for a count of zero or less; the default is one row of the given height |
| LanguageSwitcher.Code | src/i18n/config.ts:1 | each locale code has two characters and no '/' |
| LanguageSwitcher.CodeInjective | src/i18n/config.ts:1 | distinct locales have distinct codes |
| LanguageSwitcher.SetSecond | src/components/atoms/LanguageSwitcher.tsx:47 | assigning segments[1] keeps the first segment and the tail, and extends a one-segment array to two |
| LanguageSwitcher.RewriteNeverEmpty | src/components/atoms/LanguageSwitcher.tsx:46-48 | the joined path is never empty, so the `/${newLocale}` fallback is never taken |
| LanguageSwitcher.RewriteSegments | src/components/atoms/LanguageSwitcher.tsx:46-48 | splitting the new path gives the old segments with the second one replaced by the code |
| LanguageSwitcher.RewriteTwice | src/components/atoms/LanguageSwitcher.tsx:46-48 | switching twice is the same as switching once to the last locale |
| LanguageSwitcher.RewriteKeepsCurrent | src/components/atoms/LanguageSwitcher.tsx:46-48 | a path already carrying the locale's code is left unchanged |
| LanguageSwitcher.RewritePrefixed | src/components/atoms/LanguageSwitcher.tsx:46-48 | /x/rest becomes /code/rest |
| LanguageSwitcher.RewriteRoot | src/components/atoms/LanguageSwitcher.tsx:46-48 | /x becomes /code |
| LanguageSwitcher.RewriteNoSlash | src/components/atoms/LanguageSwitcher.tsx:46-48 | a path with no '/' gets "/code" appended |
| LanguageSwitcher.Switcher.constructor | src/components/atoms/LanguageSwitcher.tsx:15 | the menu starts closed |
| LanguageSwitcher.Switcher.Toggle | src/components/atoms/LanguageSwitcher.tsx:56 | the button flips the menu |
| LanguageSwitcher.Switcher.DocumentClick | src/components/atoms/LanguageSwitcher.tsx:17-25 | an outside click closes the menu; an inside click keeps it as it was |
| LanguageSwitcher.Switcher.Scroll | src/components/atoms/LanguageSwitcher.tsx:27-29 | a scroll closes the menu |
| LanguageSwitcher.Switcher.ChooseLocale | src/components/atoms/LanguageSwitcher.tsx:40-50 | choosing the current locale closes the menu and goes nowhere; any other locale navigates to the rewritten path, which is never empty, and leaves the menu as it was |
| SkillsSection.CategoryCode | src/types/index.ts:9-16 | no category code is 'featured' or 'all' |
| SkillsSection.CategoryCodeInjective | src/types/index.ts:9-16 | distinct categories have distinct codes |
| SkillsSection.Distinct | src/components/organisms/SkillsSection.tsx:58 | Set deduplication keeps the same members, with none repeated |
| SkillsSection.DistinctFirstAppearance | src/components/organisms/SkillsSection.tsx:58 | the deduplicated list is a subsequence of the original, and of any two of its entries the earlier one first appears earlier in the original, as a Set's insertion order gives |
| SkillsSection.CategoriesShape | src/components/organisms/SkillsSection.tsx:57-60 | the tabs are 'featured', 'all', then each category used by some skill, exactly once, in the order in which the categories first appear among the skills |
| SkillsSection.FilteredSkillsMeaning | src/components/organisms/SkillsSection.tsx:62-67 | 'all' shows every skill; 'featured' shows exactly the featured skills in order; a category shows exactly its skills in order |
| SkillsSection.CategoryFiltersPartition | src/components/organisms/SkillsSection.tsx:62-67 | the six category tabs together show every skill exactly once |
| SkillsSection.CategoryState.constructor | src/components/organisms/SkillsSection.tsx:45 | the initial tab is 'featured' |
| SkillsSection.CategoryState.ChangeCategory | src/components/organisms/SkillsSection.tsx:69-71 | the chosen tab becomes active |
| ItemKeys.ItemKey | src/components/molecules/ProjectCard.tsx:24 | removing '-' leaves no hyphen and keeps every other character; a one-character id loses itself exactly when it is '-' |
| ItemKeys.ItemKeyAppend | src/components/molecules/ProjectCard.tsx:24 | the key of a concatenation is the concatenation of the keys, so with the one-character case the key is the id with every '-' dropped and the rest kept in order |
| Text.RemoveAllAppend | src/components/molecules/ExperienceCard.tsx:61 | removing a character from a concatenation removes it from each part |
| ItemKeys.FieldKey | src/components/molecules/ProjectCard.tsx:24-25 | the key is the item key, '.', then the field |
| ItemKeys.FieldKeysDiffer | src/components/molecules/ProjectCard.tsx:23-31 | different fields of one item get different keys |
| ItemKeys.ItemKeyIdempotent | src/components/molecules/ProjectCard.tsx:24 | removing the hyphens twice is removing them once |
| ItemKeys.HyphenatedIdsShareKeys | src/components/molecules/ProjectCard.tsx:24 | 'my-app' and 'myapp' share the translation key 'myapp' |
| ProjectCard.ShownTechnologies | src/components/molecules/ProjectCard.tsx:71 | the first min(4, n) technologies, in order |
| ProjectCard.Overflow | src/components/molecules/ProjectCard.tsx:82-86 | a "+n" badge appears exactly when there are more than four, and n is at least 1 |
| ProjectCard.BadgesAccountForAll | src/components/molecules/ProjectCard.tsx:71-86 | the shown badges plus n count every technology, and the hidden ones are the rest of the list |
| ProjectCard.Render | src/components/molecules/ProjectCard.tsx:23-102 | featured badge exactly when featured; live and code links exactly when their URLs are non-empty; hyphen-free title and description keys; the technology badges |
| ProjectCard.CardKeys | src/components/molecules/ProjectCard.tsx:23-31 | the title and description keys are key.title and key.description, and they differ |
| ExperienceCard.FormattingLocale | src/components/molecules/ExperienceCard.tsx:50-58 | a mapped locale gives its tag, any other gives 'es-ES' |
| ExperienceCard.FormattingLocaleTable | src/components/molecules/ExperienceCard.tsx:50-58 | the five mapped tags, with 'de' falling back to 'es-ES' |
| ExperienceCard.EndLabel | src/components/molecules/ExperienceCard.tsx:106-108 | a non-empty end date other than 'present' is formatted; otherwise the translated present text is used |
| ExperienceCard.CapitalisedPresentIsNotTranslated | src/components/molecules/ExperienceCard.tsx:106-108 | 'Present' is shown untranslated, while 'present' and a missing date show the translation |
| ExperienceCard.Render | src/components/molecules/ExperienceCard.tsx:60-108 | current badge exactly when current; the company, position and description keys are the item key of the id followed by the field name; the date line is the formatted start, " - ", then the end label |
| InteractiveParticles.PickColor | src/components/atoms/ParticleEffects.tsx:28-44 | the floor-indexed draw always names one of the five colours |
| InteractiveParticles.CreateParticle | src/components/atoms/ParticleEffects.tsx:36-48 | a new particle sits at the cursor with life 1, maxLife in [30, 90), size in [1, 5), both velocities in [-1, 1), and a palette colour |
| InteractiveParticles.AdvanceMeaning | src/components/atoms/ParticleEffects.tsx:52-60 | one step moves by the velocity, damps it by 0.99, and lowers life by 1/maxLife |
| InteractiveParticles.Advanced | src/components/atoms/ParticleEffects.tsx:52-60 | every particle is advanced, in order |
| InteractiveParticles.TickMeaning | src/components/atoms/ParticleEffects.tsx:50-63 | a tick keeps exactly the advanced particles with positive life, in order |
| InteractiveParticles.TickKeepsLive | src/components/atoms/ParticleEffects.tsx:50-63 | after a tick every particle is alive |
| InteractiveParticles.SpawnShape | src/components/atoms/ParticleEffects.tsx:72-75 | the last min(n, 50) particles are kept and then the new one is added |
| InteractiveParticles.ParticleField.constructor | src/components/atoms/ParticleEffects.tsx:24-26 | no particles; mouse at the origin and not moving |
| InteractiveParticles.ParticleField.MouseMove | src/components/atoms/ParticleEffects.tsx:66-77 | the cursor is recorded and marked moving; a particle is spawned exactly when the draw exceeds 0.7 |
| InteractiveParticles.ParticleField.MouseStop | src/components/atoms/ParticleEffects.tsx:79-81 | the cursor is marked still |
| InteractiveParticles.ParticleField.Update | src/components/atoms/ParticleEffects.tsx:50-63 | the particles become their tick |
| Glyphs.PickChar | src/components/atoms/ParticleEffects.tsx:132-138 | a draw picks a character of the glyph set |
| Glyphs.ShiftIn | src/components/atoms/ParticleEffects.tsx:144 | the new glyph goes first, the others move down one, and the last drops off |
| Glyphs.ShiftKeepsCharset | src/components/atoms/ParticleEffects.tsx:144 | shifting keeps a column within the glyph set |
| Glyphs.NewColumn | src/components/atoms/ParticleEffects.tsx:137-139 | one glyph per draw, all from the glyph set |
| MatrixRain.ColumnCount | src/components/atoms/ParticleEffects.tsx:136 | floor(innerWidth / 20) |
| MatrixRain.RowOpacityFades | src/components/atoms/ParticleEffects.tsx:164 | opacities lie in (0.1, 1] and fall strictly down a column |
| MatrixRain.Rain.constructor | src/components/atoms/ParticleEffects.tsx:136-140 | floor(width / 20) columns, one per draw sequence |
| MatrixRain.Rain.Tick | src/components/atoms/ParticleEffects.tsx:142-146 | every column shifts in its drawn glyph; the column count is kept |
| MatrixBackground.Cells | src/components/atoms/MatrixBackground.tsx:31-33 | floor(pixels / 20) |
| MatrixBackground.NewGridColumn | src/components/atoms/MatrixBackground.tsx:35-39 | one glyph, position and speed per row: positions 0..n-1, speeds in [0.1, 0.6), glyphs from the set |
| MatrixBackground.RowOpacity | src/components/atoms/MatrixBackground.tsx:69 | the opacity lies in [0.1, 1], and the top row is fully opaque |
| MatrixBackground.Background.constructor | src/components/atoms/MatrixBackground.tsx:30-41 | one column per cell across, each with one row per cell down |
| MatrixBackground.Background.Tick | src/components/atoms/MatrixBackground.tsx:43-50 | every column's glyphs shift; positions and speeds are unchanged |
| MatrixBackground.TickLengths | src/components/atoms/MatrixBackground.tsx:47 | a shift keeps a non-empty column's length and its glyph set |
| ConstellationNetwork.NodeCount | src/components/atoms/ParticleEffects.tsx:215-218 | floor(area / 50000) clamped to [15, 30] |
| ConstellationNetwork.MaxDistance | src/components/atoms/ParticleEffects.tsx:221 | 150 below 768 pixels wide, 250 otherwise |
| ConstellationNetwork.MaxConnectionsPerNode | src/components/atoms/ParticleEffects.tsx:224 | 3 below 768 pixels wide, 4 otherwise |
| ConstellationNetwork.CandsUpTo | src/components/atoms/ParticleEffects.tsx:259-267 | the candidates after j steps: every other node below j, in index order, at its distance |
| ConstellationNetwork.SortByDistance | src/components/atoms/ParticleEffects.tsx:270 | the sort is a permutation of the candidates |
| ConstellationNetwork.SortInOrder | src/components/atoms/ParticleEffects.tsx:270 | the stable sort of an index-ordered list orders it by distance, ties by lower index |
| ConstellationNetwork.Take | src/components/atoms/ParticleEffects.tsx:273 | slice(0, k): the first min(k, n) elements |
| ConstellationNetwork.SelectedFacts | src/components/atoms/ParticleEffects.tsx:259-273 | at most k neighbours are selected, each another node at its distance, none twice |
| ConstellationNetwork.SelectedNearest | src/components/atoms/ParticleEffects.tsx:259-273 | min(k, n - 1) candidates are selected, and each comes before every candidate left out |
| ConstellationNetwork.CandidateCount | src/components/atoms/ParticleEffects.tsx:259-267 | one candidate per other node |
| ConstellationNetwork.CollectCandidates | src/components/atoms/ParticleEffects.tsx:259-267 | the inner loop builds exactly the candidate list |
| ConstellationNetwork.ConnectSelected | src/components/atoms/ParticleEffects.tsx:275-284 | one connection is appended per selected neighbour of higher index, each with valid distance and opacity draws |
| ConstellationNetwork.BuildConnections | src/components/atoms/ParticleEffects.tsx:257-285 | the connections are the lower-to-higher pairs of every node's selection, in node order, with valid draws |
| ConstellationNetwork.ConnectionsFromSelections | src/components/atoms/ParticleEffects.tsx:257-285 | every connection joins a node to a higher-index node among its selected nearest neighbours |
| ConstellationNetwork.ConnectionsDistinct | src/components/atoms/ParticleEffects.tsx:276-277 | no pair of nodes is connected twice |
| ConstellationNetwork.ConnectionsComplete | src/components/atoms/ParticleEffects.tsx:275-284 | every selected neighbour of higher index is connected |
| ConstellationNetwork.ConnectionDegree | src/components/atoms/ParticleEffects.tsx:273-284 | each node is the lower end of at most maxConnectionsPerNode connections |
| ConstellationNetwork.OnlyNodeCountReloads | src/components/atoms/ParticleEffects.tsx:298-307 | as written, a resize reloads exactly when the node count changes |
| ConstellationNetwork.BreakpointCrossingIgnored | src/components/atoms/ParticleEffects.tsx:298-307 | narrowing 1000x750 to 500x750 changes maxDistance but keeps 15 nodes, and does not reload |
| ConstellationNetwork.ShouldReloadMeaning | src/components/atoms/ParticleEffects.tsx:298-307 | the corrected test reloads exactly on a node-count change or a crossing of the 768-pixel breakpoint |
| ScrollConstellation.JsMod | src/components/molecules/ScrollConstellation.tsx:28-29 | % by zero is NaN; otherwise the remainder lies below the divisor |
| ScrollConstellation.StarIdInjective | src/components/molecules/ScrollConstellation.tsx:30 | distinct indices give distinct ids |
| ScrollConstellation.GenerateStars | src/components/molecules/ScrollConstellation.tsx:7-31 | twelve stars; star i at ((100i + 50) mod width, (150i + 100) mod height) with id star-i |
| ScrollConstellation.StarsOnWindow | src/components/molecules/ScrollConstellation.tsx:27-31 | on a window of positive size every star lies on it, and the ids are pairwise distinct |
| ScrollConstellation.MountedStars | src/components/molecules/ScrollConstellation.tsx:24-33 | no stars without a window; the generated twelve with one |
| ScrollConstellation.RenderRule | src/components/molecules/ScrollConstellation.tsx:36 | nothing is drawn before the stars exist; something is drawn exactly when there was a window |
| SplashCursor.RemoveSplashMeaning | src/components/atoms/SplashCursor.tsx:56-58 | removal deletes exactly the splashes with that id and keeps the rest in order |
| SplashCursor.ClickThenExpire | src/components/atoms/SplashCursor.tsx:44-58 | a click followed by its own timer restores the list when the id was fresh |
| SplashCursor.PrimaryBurst | src/components/atoms/SplashCursor.tsx:226-237 | twelve particles; angles and distances strictly increasing, angles in [0, 360), hues in [0, 360) and pairwise distinct |
| SplashCursor.SecondaryBurst | src/components/atoms/SplashCursor.tsx:261-272 | eight particles with the same properties |
| SplashCursor.BurstsInterleave | src/components/atoms/SplashCursor.tsx:227-262 | no secondary angle is a primary angle |
| SplashCursor.SplashState.constructor | src/components/atoms/SplashCursor.tsx:19-22 | no splashes, no trail, not clicking, cursor at the origin |
| SplashCursor.SplashState.MouseMove | src/components/atoms/SplashCursor.tsx:34-42 | the cursor follows, and one trail point is appended without a cap |
| SplashCursor.SplashState.Click | src/components/atoms/SplashCursor.tsx:44-53 | one splash is appended at the click; its id is the one the timer removes |
| SplashCursor.SplashState.Expire | src/components/atoms/SplashCursor.tsx:56-58 | the splashes become the list with that id removed |
| SplashCursor.SplashState.TrimTrail | src/components/atoms/SplashCursor.tsx:84-89 | the trail becomes its last five points |
| SplashCursor.SplashState.MouseDown | src/components/atoms/SplashCursor.tsx:61-63 | pressed; nothing else changes |
| SplashCursor.SplashState.MouseUp | src/components/atoms/SplashCursor.tsx:65-67 | released; nothing else changes |
| SplashCursor.TrimTrailFacts | src/components/atoms/SplashCursor.tsx:86 | the trim keeps the last min(n, 5) points in order, and trimming again changes nothing |
| HoverEffects.TiltPct | src/components/atoms/HoverEffects.tsx:34-38 | within [-0.5, 0.5] exactly when the cursor is over the element, 0 exactly at its centre, and negative before it |
| HoverEffects.Tilt.MouseMove | src/components/atoms/HoverEffects.tsx:28-42 | nothing changes without a ref; otherwise x and y become the cursor's tilt shares |
| HoverEffects.Tilt.MouseLeave | src/components/atoms/HoverEffects.tsx:44-47 | back to level |
| HoverEffects.MagneticOffset | src/components/atoms/HoverEffects.tsx:113-119 | 0 at the centre; with a positive strength the offset has the cursor's side |
| HoverEffects.MagneticBound | src/components/atoms/HoverEffects.tsx:99-119 | with the default strength, a cursor over the element moves it by at most 0.15 of its size |
| HoverEffects.Magnetic.Translation | src/components/atoms/HoverEffects.tsx:105-108 | the stored offset while hovered, none otherwise |
| HoverEffects.Magnetic.Scale | src/components/atoms/HoverEffects.tsx:109 | 1.05 while hovered, else 1 |
| HoverEffects.Magnetic.MouseEnter | src/components/atoms/HoverEffects.tsx:128 | hovered, with the offset kept |
| HoverEffects.Magnetic.MouseLeave | src/components/atoms/HoverEffects.tsx:129 | not hovered, with the last offset kept |
| HoverEffects.Magnetic.MouseMove | src/components/atoms/HoverEffects.tsx:113-122 | the offset becomes the strength-scaled distance from the centre |
| HoverEffects.ParallaxOffset | src/components/atoms/HoverEffects.tsx:267-276 | within half the depth either way for a cursor over the element, and 0 at the centre |
| HoverEffects.Parallax.constructor | src/components/atoms/HoverEffects.tsx:264-265 | the given depth, or 20 when none is given; the position starts at the origin |
| HoverEffects.Parallax.MouseMove | src/components/atoms/HoverEffects.tsx:267-276 | the position becomes the depth-scaled share |
| HoverEffects.Parallax.MouseLeave | src/components/atoms/HoverEffects.tsx:278-280 | reset to the origin |
| HoverEffects.RemoveRippleMeaning | src/components/atoms/HoverEffects.tsx:158-160 | removal deletes exactly the ripples with that id, keeping the rest in order |
| HoverEffects.SameMillisecondRipples | src/components/atoms/HoverEffects.tsx:155-160 | two clicks in one millisecond share an id and vanish together |
| HoverEffects.Ripples.Click | src/components/atoms/HoverEffects.tsx:150-157 | one ripple is appended at the click relative to the element, with the current time as id |
| HoverEffects.Ripples.Expire | src/components/atoms/HoverEffects.tsx:158-160 | the ripples become the list with that id removed |
| SetupScript.ShouldOverwriteIff | scripts/setup.js:69-72 | overwrite exactly when the answer is "y" or "yes" in any letter case |
| SetupScript.DigitValue | scripts/setup.js:84 | decimal digits are exactly the characters with value below 10 |
| SetupScript.ParseIntDigitStart | scripts/setup.js:84 | an answer starting with a digit parses as its leading digit run |
| SetupScript.ParseIntNat | scripts/setup.js:84 | a decimal number followed by non-digit text parses to that number |
| SetupScript.ParseIntHex | scripts/setup.js:84 | "0x" and hex digits parse in base 16 |
| SetupScript.ParseIntMinus | scripts/setup.js:84 | a leading '-' negates the unsigned reading |
| SetupScript.ParseIntNegative | scripts/setup.js:84 | "-n" parses to -n |
| SetupScript.CandidatePort | scripts/setup.js:80-81 | the trimmed answer, or "3000" when it is blank; never empty |
| SetupScript.DefaultPortParses | scripts/setup.js:81-87 | the default parses to 3000 |
| SetupScript.KeptWhenValid | scripts/setup.js:84-89 | a trimmed answer that parses into [1, 65535] is kept as typed |
| SetupScript.RejectedWhenInvalid | scripts/setup.js:84-87 | one that does not parse, or parses out of range, gives "3000" |
| SetupScript.ChosenPortMeaning | scripts/setup.js:80-90 | the port is the candidate or the default; the candidate exactly when it is valid; and it always parses into range |
| SetupScript.DecimalPortKept | scripts/setup.js:84-89 | every port from 1 to 65535, written in decimal, is kept |
| SetupScript.SuffixedPortKept | scripts/setup.js:84-89 | a valid number followed by text is kept with its text, as parseInt allows |
| SetupScript.HexPortKept | scripts/setup.js:84-89 | a hex port in range is kept as written |
| SetupScript.NonPositivePortRejected | scripts/setup.js:85-87 | "0" and every negative port fall back to "3000" |
| SetupScript.TrailingTextExample | scripts/setup.js:84-89 | "80abc" is kept |
| SetupScript.HexExample | scripts/setup.js:84-89 | "0x50" is kept |
| SetupScript.NonPositiveExamples | scripts/setup.js:85-87 | "0" and "-5" give "3000" |
| SetupScript.BlankAnswerDefaults | scripts/setup.js:81 | a blank answer gives "3000" |
| SetupScript.PortLine | scripts/setup.js:31-36 | the file holds the line PORT=<port> between the header lines and the rest |
| SetupScript.NodeEnvLine | scripts/setup.js:31-39 | the file holds the line NODE_ENV=<nodeEnv> after the development-settings heading |
| SetupScript.ChosenPortOneLine | scripts/setup.js:80-81 | a one-line answer gives a one-line port, so it cannot inject extra lines |
| SetupScript.ChoosePort | scripts/setup.js:80-90 | the method's port is the chosen port |
| SetupScript.Setup | scripts/setup.js:62-90 | nothing is written exactly when the file exists and the answer is not yes; otherwise the template is written with the chosen port and "development" |
| Text.TrimInfix | src/utils/validation.ts:16 | trim() returns an infix of the string, and every character it cuts off is whitespace |
| Text.TrimEmptyIff | src/utils/validation.ts:16 | a string trims to nothing exactly when it is all whitespace |
| Text.TrimIdempotent | src/utils/format.ts:24 | trimming twice is trimming once |
| Text.JoinSplit | src/components/atoms/LanguageSwitcher.tsx:46-48 | joining the split segments gives back the string |
| Text.SplitJoin | src/components/atoms/LanguageSwitcher.tsx:46-48 | splitting a join of separator-free segments gives back the segments |
| Text.NatToStringInjective | src/components/molecules/ScrollConstellation.tsx:30 | distinct numbers render to distinct decimal strings |
| Seqs.TakeLastIdempotent | src/components/atoms/SplashCursor.tsx:86 | slice(-n) applied twice equals applying it once |
| Seqs.FilterIsSubsequence | src/components/atoms/SplashCursor.tsx:57 | filter keeps exactly the elements that pass, in order |

## Left out

- JavaScript strings are UTF-16. Here they are sequences of Unicode scalar values, so lengths can differ for characters outside the Basic Multilingual Plane.
- Case mapping is ASCII only. That is exact for the y/yes question in setup.js but not for `capitalizeFirstLetter` on other letters.
- JavaScript numbers are modelled as unbounded integers and exact reals. Floating-point rounding and NaN are modelled only where they decide a branch (`%` by a zero window side, a failed `parseInt`).
- `Intl.DateTimeFormat` and its `String(date)` fallback are one formatter parameter.
- Randomness and the environment are parameters:
  - `Math.random()` is a parameter, and so is `Date.now()`;
  - window sizes and scroll offsets are parameters;
  - `getBoundingClientRect()` is a rectangle parameter;
  - `contains` and `closest` DOM tests are boolean parameters.
- Listener registration and cleanup are left out. So are `setTimeout`, `setInterval` and `requestAnimationFrame`. Their callbacks are explicit method calls.
- The sine and cosine node motion of the constellation, spring physics, framer-motion and react-spring animations, and all styling are presentation only.
- ConstellationNetwork.BuildConnections: the node distances are an abstract square matrix of reals, not computed from random positions with `Math.sqrt`.
- ConstellationNetwork.SortByDistance: `candidates.sort` runs in place on an array. It is modelled on `seq` as a stable insertion sort, so in-place update and aliasing are not captured.
- InteractiveParticles.Advance requires maxLife > 0, because a particle gets maxLife ≥ 30 when created. Hand-built particles with a zero maxLife, where JavaScript would divide by zero, are not modelled.
- ExperienceCard.LocaleMap: keys inherited from `Object.prototype` (such as 'constructor') are not modelled.
- FormSubmit: an `onError` callback that itself throws is not modelled.
- HoverEffects: rectangles of zero width or height, where JavaScript divides by zero, are excluded by the requires of TiltPct and ParallaxOffset.
- HoverEffects.Magnetic and the glow and morph hover components: only the hover flags and offsets are modelled, not their animated styles.
- SetupScript.Setup: the readline prompts, `fs.existsSync` and `fs.writeFileSync` are parameters and the result, and console output is left out. The try/catch path for an I/O failure is left out too.
- SetupScript.ParseInt: it reads digit runs as exact integers. It does not model `parseInt`'s floating-point approximation of very long digit strings, which cannot decide the range check for the ports that matter.
- SetupScript.EnvContent: the fixed comment lines of the template are not proved to be free of line breaks. PortLine and NodeEnvLine state the file's structure around the two variable lines instead.
- Header.HeaderState.Toggle: the `useToggle` hook is not part of this model. The toggle is taken to flip the flag, as its name and the button's use say.
- Header: useScrollEffect's and useScrollSection's listener plumbing is reduced to the threshold comparison and the returned scroll target.
- LoadingSpinner.RowCount: `lines` is an integer. `Array.from`'s truncation of fractional and NaN lengths is not modelled.
- LoadingSpinner: the spinner, dot loader and morphing loader are pure animation and are left out.
- Validation.ValidateContactForm: errors are keyed by a Field datatype (Name, Email, Subject, Message) rather than by string property names.
- Validation: `isValidUrl` depends on the URL parser and is not modelled.
- Files not in the core are not modelled. These include the remaining animated backgrounds and shapes, page transitions, reveal wrappers, badges, buttons, icons, LiquidBlob, and the second half of SplashCursor.tsx (lines 301-495).

## Findings

| source | as written | input that shows it | evidently intended | confidence | as-written member | corrected member |
|---|---|---|---|---|---|---|
| src/components/atoms/ParticleEffects.tsx:304 | `maxDistance !== (screenWidth < 768 ? 150 : 250)` compares the new maxDistance with itself, so this test never reloads | resizing 1000x750 to 500x750: 15 nodes before and after, maxDistance 250 to 150, no reload | reload when the connection distance the network was built with differs from the new one | not executed | ConstellationNetwork.BreakpointCrossingIgnored | ConstellationNetwork.ShouldReloadMeaning |
