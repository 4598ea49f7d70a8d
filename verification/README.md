# AISpaceTracker core, modelled in Dafny

AISpaceTracker is a Bevy application that shows live satellites around a textured
Earth. This project models the logic under its rendering:

- the TLE loader: parsing of the three-line text format into a name-keyed map,
  the 24-hour file cache, download, load and clear;
- the satellite: time since epoch, the seven-day propagation horizon, the
  panic-to-`None` guard around SGP4, and the TEME-to-Bevy axis swap;
- the start-up satellite spawning in `main.rs` (capped at 10 000), run once;
- the per-frame systems in `main.rs`: the accelerated clock, the position
  update with its three-conversion debug budget, and the label system (inside-Earth test, ray/sphere occlusion,
  far-side heuristic, placement in screen space);
- the UI: the input-field focus test, the filter text editor driven by key
  presses, key-to-character mapping, and case-insensitive substring filtering;
- the Earth: the UV-sphere mesh generator and the one-shot texture-binding check;
- the Sun: the direction from the time of day and day of year, and the terminator
  circle;
- the orbit camera: drags, arrow keys, zoom and the resulting translation;
- the trajectory-statistics helper in `coordinate_debug.rs`.

Floats are modelled as `real`. `sqrt`, `sin` and `cos` are function parameters
bundled in `RealMath.Ops`. Lemmas that need their laws take the ghost
precondition `SqrtLaw`, `TrigLaw`, `Lawful` or (for one lemma) `FullTurnLaw`, and assume nothing else about them.
SGP4 (`Satellites.Sgp4`), the download, the clock and the file system are also
inputs. Each module corresponds to one source file. `Wrappers`, `Vectors`,
`RealMath` and `Scene` are shared helpers.

## Model

| member | source | states |
|---|---|---|
| Satellites.NewSatellite | src/satellite.rs:26-33 | A new satellite keeps its name and elements, stamps the creation instant and starts with trajectory drawing on |
| Satellites.MinutesSinceEpoch | src/satellite.rs:39-40 | The offset from epoch in minutes is the nanosecond offset cut to whole seconds toward zero: never more than a second short of the true offset, and never past it |
| Satellites.UpdatePosition | src/satellite.rs:35-59 | A returned position is SGP4's output at the computed minutes, with the constants built and the offset within seven days; a panic while building the constants gives no position |
| Satellites.WholeSeconds | src/satellite.rs:39-40 | Nanoseconds become whole seconds truncated toward zero, for negative offsets as well |
| Satellites.UpdatePositionIff | src/satellite.rs:35-59 | A position is returned exactly when the offset from epoch is within 10 080 minutes either way, the constants are built, and propagation returns a position |
| Satellites.BeyondHorizonIsNone | src/satellite.rs:42-44 | Offsets beyond seven days give no position, whatever SGP4 would do |
| Satellites.HorizonIsInclusive | src/satellite.rs:39-44 | An instant exactly seven days after epoch, plus any sub-second remainder, still propagates |
| Satellites.HorizonEnds | src/satellite.rs:39-44 | One second past seven days on either side gives no position |
| Satellites.PanicIsNone | src/satellite.rs:36-58 | A panic in building constants or in propagation turns into no position |
| Satellites.TruncatesTowardZero | src/satellite.rs:39-40 | Half a second either side of epoch is minute 0.0, and 90 s before epoch is minute −1.5 |
| Satellites.InitialTranslation | src/satellite.rs:88-94 | A satellite with no position at creation is placed at the origin |
| Satellites.InitialTranslationIsFrameChange | src/satellite.rs:88-94 | When a position exists, the initial translation is its TEME-to-Bevy image, and mapping back recovers the TEME position |
| CoordinateDebug.TemeToBevy | src/coordinate_debug.rs:7-30 | The Bevy up axis (y) is the TEME polar axis (z) |
| CoordinateDebug.TemeToBevyIgnoresDebug | src/coordinate_debug.rs:7-30 | The debug flag and the name only affect logging, never the converted vector |
| CoordinateDebug.FrameRoundTrip | src/coordinate_debug.rs:20 | The axis swap and its inverse undo each other in both directions |
| CoordinateDebug.FrameIsRotation | src/coordinate_debug.rs:20 | The swap keeps dot products and lengths and commutes with the cross product, so it is a proper rotation |
| CoordinateDebug.FoldMin | src/coordinate_debug.rs:38-43 | A fold from +infinity with min over a non-empty slice yields the least coordinate, attained by some point |
| CoordinateDebug.FoldMax | src/coordinate_debug.rs:38-43 | A fold from -infinity with max over a non-empty slice yields the greatest coordinate, attained by some point |
| CoordinateDebug.AnalyzeTrajectoryCoords | src/coordinate_debug.rs:33-56 | No statistics for an empty trajectory; otherwise each bound is the true minimum or maximum of its axis, and the flat warning fires exactly when the y span is under 100 |
| CoordinateDebug.MinLeMax | src/coordinate_debug.rs:38-43 | The minimum of an axis never exceeds its maximum |
| TleLoader.FirstSolid | src/tle_loader.rs:141-150 | Scanning forward for the start of a trimmed line passes only whitespace and stops at non-whitespace or the end |
| TleLoader.LastSolid | src/tle_loader.rs:141-150 | Scanning backward for the end of a trimmed line passes only whitespace and never crosses its start |
| TleLoader.Trim | src/tle_loader.rs:141-150 | The trimmed line is a slice of the line with only whitespace cut away and non-whitespace at both ends |
| TleLoader.BlankIff | src/tle_loader.rs:141-144 | A line trims to empty exactly when it is all whitespace, which is when the parser skips it |
| TleLoader.TrimmedIff | src/tle_loader.rs:141-150 | Trimming yields a trimmed string, and a string is its own trim exactly when it is trimmed |
| TleLoader.TrimIdempotent | src/tle_loader.rs:141-150 | Trimming twice is trimming once |
| TleLoader.GroupAtFacts | src/tle_loader.rs:146-162 | A group is accepted exactly when the next two lines exist and trim to lines starting "1 " and "2 "; an accepted group carries the trimmed name |
| TleLoader.NextNameLine | src/tle_loader.rs:139-144 | The scan skips only blank lines and stops at a non-blank line or the end |
| TleLoader.GroupOfTrimmed | src/tle_loader.rs:146-162 | Three already-trimmed lines whose second and third start "1 " and "2 " form a record with the first as its name |
| TleLoader.NameLinesHeads | src/tle_loader.rs:136-166 | Every line the parser treats as a name is non-blank |
| TleLoader.NameLinesEnds | src/tle_loader.rs:136-166 | Lines skipped before the first name, and after the last group, are blank |
| TleLoader.NameLinesGaps | src/tle_loader.rs:139-166 | Consecutive names are at least three lines apart, and only blank lines lie between one group and the next name |
| TleLoader.RecordsWellFormed | src/tle_loader.rs:145-162 | Every accepted record has a non-empty name and lines starting "1 " and "2 " |
| TleLoader.RecordsExact | src/tle_loader.rs:145-162 | The records are exactly the groups accepted at the visited name lines |
| TleLoader.InsertAllFacts | src/tle_loader.rs:154 | Inserting records keeps the map keyed by name, adds exactly their names, and stores only inserted records or old values |
| TleLoader.InsertAllLastWins | src/tle_loader.rs:154 | For a repeated name, the record inserted last is the one kept |
| TleLoader.InsertAllKeeps | src/tle_loader.rs:154 | Names not inserted keep their old values |
| TleLoader.ParseTle | src/tle_loader.rs:136-166 | The parsed map is keyed by each record's own name and holds only well-formed records |
| TleLoader.ParseTleExact | src/tle_loader.rs:136-166 | Every entry comes from an accepted group at a visited name line, and every such group's name is a key |
| TleLoader.ParseTleLastWins | src/tle_loader.rs:154 | The last accepted group with a given name is the value stored under it |
| TleLoader.RecordsSplit | src/tle_loader.rs:136-166 | Records of a concatenation of name lines are the concatenation of their records |
| TleLoader.InsertAllAppend | src/tle_loader.rs:154 | Inserting two runs of records equals inserting them one after the other |
| TleLoader.ParseLines | src/tle_loader.rs:136-166 | The imperative scan builds exactly the map the recursive definition describes |
| TleLoader.MalformedGroupSkipped | src/tle_loader.rs:146-165 | A group whose third line does not start "2 " is dropped and the scan moves on three lines, so the next group is still read |
| TleLoader.BlankInsideGroupDropsIt | src/tle_loader.rs:146-165 | A blank line inside a group makes that group and the one it overlaps fail |
| TleLoader.ExampleVisits | src/tle_loader.rs:139-165 | The scan visits name lines 0 and 3 in both example inputs |
| TleLoader.IsCacheValid | src/tle_loader.rs:60-83 | The cache is valid exactly when the file has a readable modification time m ≥ 0 and now is before the end of m's hour plus 24 hours; so a valid cache is under 24 hours old, and one written at most 23 hours ago is valid |
| TleLoader.LoadFromCache | src/tle_loader.rs:87-104 | Loading succeeds exactly when the file exists and can be read and deserialised, and then returns the stored map |
| TleLoader.SaveToCache | src/tle_loader.rs:107-125 | A write succeeds exactly when the disk is writable; then loading returns the saved map and the cache is valid at the save time; a failed write leaves the disk alone |
| TleLoader.Download | src/tle_loader.rs:128-176 | A failed fetch is the error with the disk unchanged; a successful fetch returns its parse, which a writable disk then holds as a valid cache |
| TleLoader.LoadActiveSatellites | src/tle_loader.rs:179-203 | Loading succeeds exactly when the fetch does or a valid, readable cache exists; the disk changes only when a fetch replaces a missing or stale cache on a writable disk |
| TleLoader.ClearCache | src/tle_loader.rs:206-213 | A successful clear leaves no file; the clear fails exactly for an existing file on a read-only disk, and then changes nothing |
| TleLoader.FreshIsYoung | src/tle_loader.rs:60-84 | A valid cache has a readable modification time less than 24 hours old |
| TleLoader.YoungIsFresh | src/tle_loader.rs:60-84 | A cache written at most 23 hours ago is valid |
| TleLoader.OldIsStale | src/tle_loader.rs:60-84 | A cache written 24 hours ago or more is stale |
| TleLoader.FreshnessIgnoresContents | src/tle_loader.rs:60-84 | Freshness depends only on the modification time, not on the file's contents |
| TleLoader.LoadUsesCacheOnlyWhenFresh | src/tle_loader.rs:179-203 | A fresh, readable cache is returned unchanged; otherwise the result succeeds exactly when the fetch does, and is the parse of the fetched lines |
| TleLoader.DownloadErrorPropagates | src/tle_loader.rs:128-135 | A failed fetch is returned as the error and leaves the disk alone |
| TleLoader.SaveFailureIgnored | src/tle_loader.rs:171-175 | A failed cache write does not fail the download |
| TleLoader.CacheRoundTrip | src/tle_loader.rs:107-203 | A download saved at t0 is what a load returns at any time within 23 hours, whatever the network does |
| TleLoader.ClearCacheIdempotent | src/tle_loader.rs:206-213 | After a clear the file is gone, clearing again succeeds without change, and the next load downloads |
| Tracker.SpawnOne | src/main.rs:100-121 | A spawned satellite carries the entry's name and elements, trajectory on, with a visible label of the same name |
| Tracker.SpawnAll | src/main.rs:96-121 | At most one satellite per entry, each with trajectory drawing on and a visible label |
| Tracker.SpawnAllLength | src/main.rs:99-106 | No more satellites are spawned than entries given |
| Tracker.SpawnAllMembers | src/main.rs:99-106 | A satellite is spawned exactly for each entry whose elements convert |
| Tracker.LoadSatellites | src/main.rs:86-123 | A load error spawns nothing; otherwise the first 10 000 entries are spawned, and never more than 10 000 |
| Tracker.AcceleratedTime | src/main.rs:135-150 | The simulated instant is the start plus the elapsed seconds in nanoseconds, truncated |
| Tracker.GrantedCount | src/main.rs:156-164 | The debug counter ends at the smaller of 3 and its start plus the number of computed positions, unless it had already reached 3 |
| Tracker.FlagsFacts | src/main.rs:156-164 | The k-th satellite is converted with debug on exactly when it has a position and fewer than three earlier conversions were granted |
| Tracker.FlagsStep | src/main.rs:152-166 | Handling one more satellite appends exactly one debug flag and bumps the counter only for a granted conversion |
| Tracker.UpdateSatellitePositions | src/main.rs:125-168 | The start time is latched once; each satellite with a position moves to its Bevy image and others stay; debug flags and counter follow the budget |
| Tracker.DebugCounterFacts | src/main.rs:156-164 | The counter never decreases, never passes 3 from below, and grows by the number of debug conversions |
| Tracker.HalfChordSquared | src/main.rs:232-233 | The half chord squared is R² minus the squared ray distance |
| Tracker.LabelTranslation | src/main.rs:279-290 | A label sits at the NDC point scaled to half the window size, at depth 0 |
| Tracker.LabelShownIff | src/main.rs:180-295 | A label is shown, at the scaled NDC point with scale 0.5, exactly when its satellite is not filtered out, outside the Earth, not occluded, not on the far side, and projects inside the depth range |
| Tracker.FilteredHidesLabel | src/main.rs:203-206 | A filtered-out satellite's label is hidden |
| Tracker.InsideEarthIff | src/main.rs:216-219 | Inside-Earth is the squared distance below R² |
| Tracker.LabelsKeptIff | src/main.rs:180-198 | A label is left alone exactly when there is no camera or window, or the label has no satellite |
| Tracker.FarSideAsWrittenHidesNearSide | src/main.rs:247-262 | The far-side test as written fires only when camera and satellite are on the same side of the Earth |
| Tracker.FarSideCorrectedHidesFarSide | src/main.rs:247-262 | The corrected test fires only when the satellite is on the opposite side from the camera |
| Tracker.ClosestGeometry | src/main.rs:222-228 | The camera-to-satellite direction is a unit vector, the closest-approach distance is non-negative, and it is the leg of a right triangle with the camera's distance to the centre as hypotenuse |
| Tracker.RayBlockedExitOnSurface | src/main.rs:222-244 | When the ray counts as blocked, the exit point lies on the Earth's surface, strictly between camera and satellite |
| Tracker.FarSideDecides | src/main.rs:247-267 | For a visible satellite outside the Earth and not occluded, the far-side test alone decides between hiding and showing |
| Tracker.FarSideFinding | src/main.rs:247-262 | Camera at (0,0,20000) and satellite at (0,0,10000): the code as written hides the label, and the corrected rule shows it |
| Tracker.LabelDecision | src/main.rs:199-295 | A shown label has scale 0.5, a projection with depth in [−1, 1], and a satellite that is visible, outside the Earth, not occluded and not on the far side |
| Tracker.UpdateSatelliteLabels | src/main.rs:172-295 | Without a camera or window every label is kept; with them, a label whose satellite is hidden is hidden |
| Tracker.RayBlocked | src/main.rs:221-244 | A satellite that counts as occluded lies outside the Earth |
| Tracker.BeyondExitOutside | src/main.rs:231-244 | A point on the ray past the exit point of a ray that meets the sphere lies outside the sphere |
| Tracker.FarSide | src/main.rs:246-262 | The test as written fires only when the camera and satellite lie on the same side of the centre; the corrected one only when they lie on opposite sides |
| Ui.FocusStable | src/ui.rs:74-98 | With a window the previous focus plays no part, and checking twice against the same cursor is checking once |
| Ui.FocusEdges | src/ui.rs:87-97 | The field's corners count as inside, and points just past its edges do not |
| Ui.CheckInputFocus | src/ui.rs:74-98 | Without a window the focus is unchanged; otherwise it is set exactly when the cursor lies in the field's closed rectangle |
| Ui.KeyToCharAlphabet | src/ui.rs:143-185 | Every mapped key gives a letter, digit, space, '-' or '_' |
| Ui.KeyToCharDomain | src/ui.rs:119-185 | A key maps to a character exactly when it is one of the 38 keys the editor polls |
| Ui.KeyToCharShift | src/ui.rs:143-185 | Shift upper-cases letters, leaves digits and space, and turns '-' into '_' |
| Ui.KeyToChar | src/ui.rs:143-185 | Exactly Backspace, the shift keys and unlisted keys give no character; every character given is in the key alphabet |
| Ui.TypeKey | src/ui.rs:119-135 | One polled key appends its character exactly when it was just pressed and maps to one, and marks the text as typed exactly then |
| Ui.TypeRun | src/ui.rs:119-135 | Polling any run of keys appends exactly the characters of the just-pressed keys that have one, in order, and reports typing exactly when something was appended |
| Ui.Pop | src/ui.rs:112-114 | Backspace removes one character from the end, and nothing from empty text |
| Ui.PopPush | src/ui.rs:112-114 | Backspace undoes typing one character |
| Ui.TypeKeys | src/ui.rs:119-135 | The text grows by exactly the characters of the just-pressed polled keys, in polling order, and something was typed exactly when that run is non-empty |
| Ui.UpdateFilterText | src/ui.rs:100-141 | Unfocused, nothing changes; focused, the text is the backspaced text followed by the pressed keys in polling order, the display mirrors it, and a change is reported exactly for a backspace or a mapped key |
| Ui.TypedEmptyIff | src/ui.rs:119-135 | Typing adds something exactly when some polled key was just pressed |
| Ui.TypedNonEmpty | src/ui.rs:119-135 | Typed text is non-empty exactly when some listed key with a character was just pressed |
| Ui.TypedInAlphabet | src/ui.rs:119-185 | Typed text contains only the key alphabet |
| Ui.EditKeepsAlphabet | src/ui.rs:100-141 | Editing keeps text inside the key alphabet |
| Ui.FilterTextAlphabet | src/ui.rs:100-141 | From an empty filter, any run of frames leaves only alphabet characters |
| Ui.TypedSkip | src/ui.rs:119-135 | Keys that were not pressed add nothing |
| Ui.PollingOrder | src/ui.rs:119-135 | Pressing B and A together on "xy" gives "xyab": the poll order fixes the order, not the press order |
| Ui.BackspaceThenType | src/ui.rs:112-135 | Backspace applies before typing, with shift: "xy" becomes "x1_" |
| Ui.BackspaceOnEmpty | src/ui.rs:112-114 | Backspace on empty text leaves it empty |
| Ui.AsciiLowercase | src/ui.rs:197-200 | Lower-casing keeps the length and lower-cases ASCII capitals character by character |
| Ui.ContainsIff | src/ui.rs:206 | The substring test holds exactly when the needle occurs at some offset |
| Ui.ShouldShow | src/ui.rs:197-206 | A row is shown exactly when the filter is empty or the lower-cased filter occurs in the lower-cased name |
| Ui.FilterSatellites | src/ui.rs:187-222 | Filtering keeps every row and its name, and touches label visibility only where a label exists |
| Ui.FilterVisibleIff | src/ui.rs:197-220 | After a change a row is Visible exactly when the filter is empty or its lower-case form occurs in the lower-case name, else Hidden, and its label copies that |
| Ui.FilterUnchanged | src/ui.rs:193-195 | Without a change to the filter text nothing is touched |
| Ui.LowercaseIdempotent | src/ui.rs:197-200 | Lower-casing twice is lower-casing once |
| Ui.FilterIgnoresCase | src/ui.rs:197-206 | Matching ignores ASCII case on both the name and the filter |
| Ui.NameMatchesItsSlices | src/ui.rs:197-206 | A name always matches itself and any of its slices |
| Earth.MeshOf | src/earth.rs:100-150 | The three attribute lists have one entry per emitted corner |
| Earth.EmitCell | src/earth.rs:103-145 | One cell appends the corners of its two triangles, skipping the top one at the north pole row and the bottom one at the south pole row |
| Earth.EmitRow | src/earth.rs:101-145 | One stack row appends exactly the mesh of its cells, left to right, after what was already built |
| Earth.CreateUvSphere | src/earth.rs:61-153 | The mesh is that of all cells in row-major order, with 2·sectors·(stacks−1) triangles in three equal-length lists and UVs in the unit square; zero counts give an empty mesh |
| Earth.SphereCornersCount | src/earth.rs:100-146 | The sphere has three corners per triangle and 2·sectors·(stacks−1) triangles |
| Earth.GridCornersCount | src/earth.rs:100-146 | Each full row contributes two triangles per sector, and each pole row one |
| Earth.SphereUvsInUnitSquare | src/earth.rs:94-95 | Every texture coordinate lies in [0,1]² |
| Earth.VertexOnSphere | src/earth.rs:75-98 | Every vertex is at distance `radius` from the centre, and for a non-zero radius its normal is a unit vector |
| Earth.VertexPosition | src/earth.rs:75-98 | Every vertex lies at distance `radius` from the centre, and the top row is the north pole (0, radius, 0) |
| Earth.SphereNorm | src/earth.rs:75-98 | The spherical parametrisation has length `radius` at every polar angle and azimuth |
| Earth.PushTriangle | src/earth.rs:119-134 | Pushing a triangle appends exactly the attributes of its three corners |
| Earth.GridSound | src/earth.rs:100-146 | Every emitted triangle has three distinct grid points, no two of them on the same pole |
| Earth.GridInGrid | src/earth.rs:100-146 | Every emitted corner lies within the emitted rows and at most at the last meridian |
| Earth.SkippedTrianglesDegenerate | src/earth.rs:119-134 | The triangles skipped at the poles are exactly the degenerate ones |
| Earth.EarthMesh | src/earth.rs:23-27 | The Earth mesh (radius 6371, 64 sectors, 32 stacks) has 3968 triangles |
| Earth.CheckOne | src/earth.rs:162-192 | Once the texture is loaded the latch is set; before that the materials and the latch are unchanged; no material is added or removed |
| Earth.CheckKeepsLatch | src/earth.rs:156-193 | The latch agrees with whether the loaded message has been logged |
| Earth.LoadedLoggedOnce | src/earth.rs:156-193 | Over any run of frames the loaded message is logged at most once, and once exactly when the latch is set |
| Earth.MaterialBound | src/earth.rs:179-184 | On load the Earth material gets a texture (its existing one if any) and a white base colour |
| Earth.OtherMaterialsUnchanged | src/earth.rs:179-184 | Other materials are not touched |
| Earth.CheckEarthTextureLoaded | src/earth.rs:156-193 | No material is added or removed; the latch ends set exactly when it was set or some Earth's texture is loaded; once set, nothing more is logged |
| Sun.HoursSinceMidnight | src/sun.rs:30-33 | A valid clock gives a time of day in [0, 24) hours, equal to 12 exactly at 12:00:00 |
| Sun.ClockHours | src/sun.rs:30-33 | Hours, minutes and seconds within their ranges give fractional hours in [0, 24), equal to 12 only at 12:00:00 |
| Sun.HourAngleDegrees | src/sun.rs:34-35 | A valid clock gives an hour angle in [−180°, 180°), zero exactly at 12:00:00 |
| Sun.DeclinationDegrees | src/sun.rs:22-23 | The declination stays within ±23.44° |
| Sun.TiltedSineBounded | src/sun.rs:22-23 | The tilt times any sine lies within ±23.44° |
| Sun.CalculateSunDirection | src/sun.rs:15-60 | The direction is a unit vector equal to the raw spherical direction, its height is the sine of the declination, and at 12:00 UTC it has no east-west component |
| Sun.RawSunDirectionIsUnit | src/sun.rs:56-60 | The raw direction is already a unit vector, so normalising returns it unchanged |
| Sun.ReferenceAxis | src/sun.rs:76-82 | The reference axis is the unit X or Y vector |
| Sun.ReferenceNotParallel | src/sun.rs:76-82 | The chosen reference is never parallel to a unit sun direction, so the first cross product is non-zero |
| Sun.BasisOrthonormal | src/sun.rs:85-86 | The two basis vectors are unit length, orthogonal, and perpendicular to the sun |
| Sun.CreateTerminatorLineMesh | src/sun.rs:64-98 | resolution+1 points at equal angle steps; for a unit sun each lies on the Earth's surface in the plane perpendicular to the sun |
| Sun.TerminatorAngles | src/sun.rs:89-94 | The angles start at 0, end at 2π, and advance in equal steps |
| Sun.TerminatorClosed | src/sun.rs:89-94 | The last point repeats the first, closing the line strip, for sine and cosine that return to their values at 0 after a full turn |
| Sun.TerminatorOnGreatCircle | src/sun.rs:89-94 | Every terminator point is at distance R from the centre and perpendicular to the sun |
| Camera.DefaultInBounds | src/camera.rs:11-19 | The default controller starts with pitch and distance inside their bounds |
| Camera.Clamp | src/camera.rs:39-42 | The clamped value lies within the bounds and equals the input when the input does |
| Camera.DragEvent | src/camera.rs:34-46 | An event is remembered; with a previous position the yaw moves −0.001 rad per pixel of horizontal motion and the pitch −0.001 rad per pixel of vertical motion, clamped to its bounds; without one nothing turns; the centre and distance never change |
| Camera.DragEvents | src/camera.rs:32-48 | Dragging changes neither the orbit centre nor the distance, keeps a pitch that starts in bounds in bounds, and remembers the last cursor position |
| Camera.DragYawTelescopes | src/camera.rs:32-48 | Over a drag the yaw moves by 0.001 rad per pixel of horizontal travel from the anchor to the last event |
| Camera.CameraStep | src/camera.rs:22-94 | The orbit centre never moves, and the cursor is forgotten while the button is up |
| Camera.CameraStepPitch | src/camera.rs:22-94 | Every frame keeps the pitch inside [−π/2+0.1, π/2−0.1] |
| Camera.KeyStep | src/camera.rs:50-84 | The up arrow adds and the down arrow subtracts the frame time from the pitch, each clamped to the bounds in turn, so either lands the pitch in bounds, and with neither the pitch is left alone; with a non-negative frame time the distance stays in [1000, 100 000]; the centre never moves |
| Camera.ZoomBounds | src/camera.rs:78-84 | W zooms in to no closer than 1000 and S zooms out to no farther than 100 000; neither key leaves the distance alone |
| Camera.CameraStepDistance | src/camera.rs:22-94 | With a non-negative frame time every frame keeps the distance in [1000, 100 000] |
| Camera.ArrowYaw | src/camera.rs:54-59 | Left and right arrows change the yaw by exactly the frame time, with no clamp |
| Camera.ReleaseThenPress | src/camera.rs:32-48 | After a release, the first drag event of the next press only records the cursor, so the camera does not jump |
| Camera.OrbitOffset | src/camera.rs:87-89 | The offset has length `distance`, and points along +Z when yaw and pitch are zero |
| Camera.OrbitNorm | src/camera.rs:87-89 | Distance times the unit vector at any pitch and yaw has length `distance` |
| Camera.TranslationOnOrbit | src/camera.rs:87-91 | The camera lies on the sphere of radius `distance` about the orbit centre |

## Left out

- Floating point: `f32`/`f64` rounding, NaN and infinity are not modelled; arithmetic is exact over the reals.
- `RealMath.Normalize`: the zero vector maps to the zero vector, where `Vec3::normalize` gives NaN. The label system compares the result, and NaN comparisons and the zero vector both fail those comparisons, so decisions agree.
- `sqrt`, `sin`, `cos` and `to_radians` are parameters with stated laws (non-negative square root that squares back; Pythagorean identity; values at 0). Nothing more precise is assumed. `Pi` is 3.141592653589793, the shortest decimal that rounds to `f64`'s π (whose exact value is 3.14159265358979311599…), also used where the source takes `f32`'s π.
- SGP4 itself (`Constants::from_elements`, `propagate`) and `TleData::to_elements` (src/tle_loader.rs:16) are inputs. A panic is an explicit `Attempt` outcome.
- The clock (`Utc::now`, `SystemTime::now`) is an input. Each spawned satellite reads the clock twice, in `Satellite::new` (src/satellite.rs:30) and in `SatelliteBundle::new` (src/satellite.rs:89). `Tracker.SpawnAll` and `Tracker.LoadSatellites` give one `now` to every satellite and to both reads.
- `TleLoader.IsCacheValid`: the current time is whole seconds since the Unix epoch (a `nat`). The source's `SystemTime::now().duration_since(UNIX_EPOCH).unwrap()` (src/tle_loader.rs:72-74) panics for a clock set before 1970; that panic is not modelled.
- `Tracker.AcceleratedTime`: `.Floor` does not saturate, whereas the source's `as i64` (src/main.rs:149) saturates at the ends of the `i64` range. Nanosecond counts that large are not modelled.
- Calendar arithmetic from `chrono` is not modelled: the day of year, hour, minute and second enter `Sun.SolarTime` directly.
- The network (`reqwest`), the file system, JSON (`serde`) and the cache directory are modelled as a `Disk` value and a `fetch` result. Only whether a read or write succeeds is kept.
- `str::lines()` is not modelled: the parser takes the sequence of lines.
- `HashMap` iteration order is unspecified: `load_satellites` takes the map's entries as an input sequence in some order.
- Logging is not modelled: `info!`/`warn!`/`error!` and the texture size in the loaded message. The one exception is the texture check (`Earth.CheckOne`), whose log sequence records both its messages: the once-only "loaded" message, and the "still loading" message, repeated for every unloaded texture on every frame until the latch is set.
- The Bevy ECS, asset server, meshes and render assets are not modelled. Queries become sequences and `Handle`s become numbers. `world_to_ndc` is an input (`Option<Vec3>`).
- `setup_scene`, `setup_ui` and `main` only build entities and register systems. They are not modelled beyond the constants the modelled systems use (Earth radius and mesh counts).
- Bevy change detection on the filter text is an input flag. This includes its being set on the first frame.
- The mouse-motion event queue is not modelled while the button is up: the events of a frame are read only during a drag.
- The `Local` last-cursor state of the camera system is modelled per camera. The system's query takes only cameras `With<Camera3d>` (src/camera.rs:23), and exactly one such camera is spawned (src/main.rs:74-83); the second, `Camera2d` camera of the UI (src/ui.rs:21-27) is not queried.
- `Camera.CameraStep`: the camera's orientation, `transform.look_at(orbit_center, Vec3::Y)` (src/camera.rs:92), is not modelled. It reaches the label system only through the `world_to_ndc` input.
- `Ui.AsciiLowercase` lower-cases only ASCII capitals. `to_lowercase` also folds non-ASCII letters, but satellite names are ASCII and filter text can only hold the key alphabet.
- `Sun.CreateTerminatorLineMesh`: requires `resolution > 0`. With zero the source divides 0 by 0 and emits a NaN point.
- `Sun.TerminatorClosed`: the strip closes only for an ideal π. The source's `f32` angle 2·`PI` is not exactly a full turn, so its last point is only close to the first. The lemma asks for `FullTurnLaw`, which real sine and cosine do not meet at the rational `Pi`.

## Findings

| source | as written | input that shows it | evidently intended | confidence | as-written member | corrected member |
|---|---|---|---|---|---|---|
| src/main.rs:247-262 | The far-side test dots the camera→Earth direction with the Earth→satellite direction and hides the label below −0.2. It therefore fires for satellites on the camera's side of the Earth. | camera (0,0,20000), satellite (0,0,10000): the satellite is in plain view between camera and Earth, yet its label is hidden | Dot the Earth→camera direction with the Earth→satellite direction, so labels hide only for satellites behind the Earth | not executed | Tracker.FarSideFinding, Tracker.FarSideAsWrittenHidesNearSide | Tracker.FarSideCorrectedHidesFarSide |

The label system (`Tracker.UpdateSatelliteLabels`) takes the rule as a parameter (`AsWritten` or `Corrected`), so both behaviours are stated side by side. The corrected rule is the intended one.
