# Automated OMR evaluation — a verified Dafny model

This project models the part of the Automated OMR Evaluation system that turns a
photographed answer sheet into a score. The system's own terms are used throughout.

- **Fiducial search** (`find_fiducials`). The model starts from the bounding boxes
  of the dark blobs. It keeps the boxes whose area exceeds 0.2 % of the image and
  answers `None` when fewer than four are left. Otherwise it takes the four largest
  with a stable sort, computes their centres, and orders them top-left, top-right,
  bottom-right, bottom-left.
- **Rectification targets** (`warp_to_template`'s `dst_pts`), and the mismatch
  between those targets and what the fiducial search returns (see Findings).
- **Bubble detection** (`detect_selections`):
  - the sampling window around each normalised centre, clipped to the image as
    numpy slicing clips it;
  - the circular mask of radius `int(0.9 * opt_radius)`;
  - the dark-pixel count and the fill ratio;
  - the selection rule: the first maximal ratio is chosen when it reaches the
    threshold.
- **Scoring** (`score_results`): the selected text, the correct-mask, five subjects
  of twenty questions each, and the total.
- **Overlay colour** (`create_overlay`): grey, green or red for each bubble.
- **Template generation**, for both generator files:
  - the page constants;
  - the 5 x 20 x 4 bubble layout;
  - `normalize_coords`;
  - `random_answer_key`;
  - the bubble that `fill_answers` blackens;
  - the four fiducial squares that `create_blank_template` draws.

Floating-point values are modelled as reals. Python's `int()` truncates toward
zero, and the model writes that out (`PyNum.Int`), as it does numpy's slice-bound
normalisation. The numbers π and the random choice are parameters: π is any
positive real, and the choice is any letter of `A`–`D`.

The code has no error for an ambiguous fiducial order, a degenerate transform
or an answer key whose length differs from the template's. The model follows the
code:
- `None` is the only failure of the fiducial search, and any four qualifying
  centres are put in corner order;
- `score_results` simply indexes `detected` and reads subjects from the first 100
  entries of the correct-mask, so the model states those index demands as
  preconditions.

## Model

| member | source | states |
|---|---|---|
| PyNum.Int | venv/omr.py:59-60 | Python `int()` of a real truncates toward zero: the result is within one unit below (non-negative input) or above (negative input) the value |
| PyNum.SliceBound | venv/omr.py:65 | a numpy slice bound is normalised into `0..n`, and an in-range bound is kept |
| PyNum.SliceLength | venv/omr.py:65 | a slice fits inside the array from its normalised start, and an in-range slice has length `stop - start` |
| Labels.LetterIndex | venv/omr.py:121 | the dictionary `{'A':0,'B':1,'C':2,'D':3}` finds exactly the four labels, and the index found maps back to the same label |
| Labels.LetterIndexOfLetter | venv/template_generator.py:61 | the lookup inverts the label list `['A','B','C','D']` |
| StableSort.Sort | venv/omr.py:31 | `sorted` returns a permutation of its input |
| StableSort.SortSorted | venv/omr.py:31 | under a strict weak order, `sorted`'s output never has a later element that comes strictly before an earlier one |
| StableSort.SortOfSorted | venv/omr.py:36 | sorting an already ordered list leaves it unchanged, which is what keeps ties in input order |
| StableSort.SortPair | venv/omr.py:37-38 | sorting two elements swaps them exactly when the second comes strictly first |
| Fiducials.Qualifying | venv/omr.py:22-27 | a box is kept exactly when its area exceeds 0.002·w·h, and every occurrence of a qualifying box is kept: the result holds each qualifying box as often as the input does and no other box |
| Fiducials.QualifyingAppend | venv/omr.py:22-27 | the filter keeps input order: filtering a concatenation gives the concatenation of the filtered parts |
| Fiducials.AllQualify | venv/omr.py:22-27 | when every box passes the area test, the filter returns the whole list |
| Fiducials.SortKeysAreWeakOrders | venv/omr.py:31-38 | the four sort keys used (area descending, (y, x) ascending, x ascending, x descending) are strict weak orders, so `sorted` with each of them yields an ordered permutation |
| Fiducials.LargestFour | venv/omr.py:31 | exactly four boxes are kept, drawn from the candidates, and no dropped box is larger than any kept box |
| Fiducials.EqualSquaresKept | venv/omr.py:22-31 | four qualifying boxes of equal area all pass the filter and are kept in their input order by the stable sort |
| Fiducials.OrderCorners | venv/omr.py:36-39 | the output permutes the four centres; both top corners come no later in (y, x) order than both bottom ones; top-left is left of top-right and bottom-right right of bottom-left |
| Fiducials.UprightCorners | venv/omr.py:35-39 | on an upright page the centres come back as top-left, top-right, bottom-right, bottom-left |
| Fiducials.FindFiducials | venv/omr.py:16-40 | `None` exactly when fewer than four boxes qualify; otherwise four corner-ordered points that permute the centres of the four largest qualifying boxes |
| TemplateLayout.GenerateBubbleLayout | venv/template_generator.py:26-45 | 100 questions of four option centres each, in column-major order |
| TemplateLayout.XCenterValue | venv/template_generator.py:29-34 | the column centre is `168 + 216·col` |
| TemplateLayout.YCenterValue | venv/template_generator.py:30-36 | the row centre is `156 + 73·row` |
| TemplateLayout.LayoutClosedForm | venv/template_generator.py:26-45 | option `k` of question `q` lies at `(168 + 216·(q/20) + [-60,-20,20,60][k], 156 + 73·(q%20))` |
| TemplateLayout.OptionsInOneRow | venv/template_generator.py:39-43 | a question's options share one y and are 40 pixels apart, A to D left to right |
| TemplateLayout.SubjectBlocksAreColumns | venv/template_generator.py:27-34 | every bubble of subject `s` lies strictly inside that subject's column of the page |
| TemplateLayout.CentresInsidePage | venv/template_generator.py:26-45 | every centre is at least 108 pixels from the left and right edges, 156 from the top and 157 from the bottom |
| TemplateLayout.GeneratorsAgree | template_generator.py:11-42 | the two generator files use the same constants, give the same layout and draw the same fiducial squares |
| TemplateLayout.NormalizeCoords | venv/template_generator.py:79-85 | the same shape as the input, each coordinate divided by the page size and inside [0, 1] for on-page pixels |
| TemplateLayout.NormalizedPixelRoundTrip | venv/omr.py:59-60 | over exact reals, for every normalised centre, `int(nx·W)` and `int(ny·H)` give back the template pixel |
| TemplateLayout.RandomAnswerKey | venv/template_generator.py:53-55 | a key of the requested length whose every entry is one of `A`–`D` |
| TemplateLayout.FillTargets | venv/template_generator.py:57-64 | for each question, the blackened centre is the option that the key's letter names |
| TemplateLayout.FiducialSquareGeometry | venv/template_generator.py:17-24 | four squares drawn between corner coordinates 100 apart, inset by 60 from two page edges, whose corner coordinates have midpoints (110,110), (1090,110), (110,1590), (1090,1590) |
| BubbleFill.SampleWindow | venv/omr.py:62-65 | the window lies inside the image; away from the border it is the full square of side `2r` around the centre |
| BubbleFill.DarkAtMostMask | venv/omr.py:67-71 | the dark count never exceeds the number of mask pixels |
| BubbleFill.DarkMonotone | venv/omr.py:67-71 | more ink inside the mask never lowers the count, and the same ink gives the same count |
| BubbleFill.FullBubbleCountsMask | venv/omr.py:67-71 | a fully inked window counts every mask pixel |
| BubbleFill.FillRatioMonotone | venv/omr.py:72 | the fill ratio grows with the dark count |
| BubbleFill.GridFits | venv/omr.py:62-65 | every option window fits inside the thresholded image |
| BubbleFill.SampleOption | venv/omr.py:54-73 | an option's ratio lies between 0 and the ratio of a fully inked bubble |
| BubbleFill.SampleMonotone | venv/omr.py:54-73 | a sheet with more ink never gives an option a lower ratio |
| Selection.ArgMax | venv/omr.py:75-76 | `np.argmax` gives the first index of a maximal value |
| Selection.Decide | venv/omr.py:75-85 | a label is selected exactly when the maximum reaches the threshold, and it is the letter of the first maximal choice |
| Selection.ThresholdMonotone | venv/omr.py:77 | lowering the threshold never turns a selection into a blank |
| Selection.UniqueMarkSelected | venv/omr.py:75-80 | one option above the threshold with all others below selects that option's letter |
| Selection.DetectSelections | venv/omr.py:48-86 | one detection per question, in question order; each choice is the option's sampled ratio; each detection is the selection rule applied to its ratios, so `max_val` is the largest ratio and a letter `A`–`D` is selected, that of the first maximal ratio, exactly when the maximum reaches the threshold |
| Scoring.CountTrueAll | venv/omr.py:98-104 | counting an all-true mask gives its length |
| Scoring.SubjectScoresSum | venv/omr.py:98-104 | the five subject scores add up to the count over the first 100 questions |
| Scoring.ScoreResults | venv/omr.py:88-110 | selected text (empty for blanks); correct exactly when the selection equals the key; blanks never correct; five subject scores of at most 20 that sum to the total; total at most 100 |
| Scoring.OnlyFirstHundredCount | venv/omr.py:97-104 | questions beyond the hundredth never change the subject scores or the total |
| Scoring.PerfectSheetScoresFull | venv/omr.py:88-110 | a sheet that selects the key's letter on every question scores 20 in every subject and 100 in total |
| Overlay.BubbleColor | venv/omr.py:116-122 | grey unless the bubble is the selected one; the selected bubble is green when it matches the key and red otherwise |
| Overlay.OverlayMatchesScore | venv/omr.py:116-122 | the overlay shows a green bubble in a question exactly when the score marks that question correct |
| Rectifier.WarpTargets | venv/omr.py:42-43 | the four targets are inset 60 pixels from the corners of the output, in top-left, top-right, bottom-right, bottom-left order |
| Rectifier.FiducialSquaresPassFilter | venv/omr.py:26 | each template square's 101 × 101 bounding box (area 10201) passes the 0.2 % area test on a 1200 × 1700 page |
| Rectifier.TemplateFiducialsFound | venv/omr.py:16-40 | on the blank template of either generator, whose squares' bounding boxes are 101 pixels on a side, the fiducial search returns (110.5, 110.5), (1090.5, 110.5), (1090.5, 1590.5), (110.5, 1590.5) |
| Rectifier.TemplateSquaresKept | venv/omr.py:22-31 | on any page the corner squares fit, all four drawn squares pass the area filter and are kept, in drawing order, as the four largest |
| Rectifier.WarpTargetsAreOuterCorners | venv/omr.py:43 | each warp target is the outer corner of a drawn fiducial square |
| Rectifier.WarpTargetsOffCentre | venv/omr.py:43 | each warp target lies outward of the matching fiducial centre on both axes, by 50.5 pixels on the left and top sides and 49.5 on the right and bottom sides |
| Rectifier.WarpTargetsMissFiducialCentres | venv/omr.py:28-43 | on the blank template the fiducial search succeeds, and the points it returns are not the warp targets |
| Rectifier.CentredWarpTargets | venv/omr.py:43 | the corrected targets are the centres of the filled fiducial squares, in corner order |
| Rectifier.CentredTargetsFixTemplate | venv/omr.py:16-46 | on any page the corner squares fit, and so for both generators, the points that the fiducial search returns on the blank template are exactly the corrected targets |
| Registration.DefaultMaskRadius | venv/omr.py:48-62 | the default mask radius is 16 and the window reaches 24 pixels from the centre |
| Registration.LayoutWindowsUnclipped | venv/omr.py:56-71 | over exact reals, on a 1200 × 1700 sheet every layout bubble is sampled in a full 48 × 48 window centred on it |
| Registration.TemplateOptionCounts | venv/template_generator.py:79-85 | the normalised template gives four options per question, as detection expects |
| Registration.GeneratedKeyFitsLayout | venv/template_generator.py:53-64 | a generated 100-letter key fits the layout, and the blackened bubble is the closed-form centre of its letter |

## Left out

- Image I/O is not modelled: reading, writing, JSON loading (`load_template_meta`, `save_json`), `main.py`, `app.py` and `venv/app.py`.
- `process_image` is not modelled. It only chains the modelled steps and turns a `None` from the fiducial search into a `RuntimeError`.
- The OpenCV primitives are not modelled: grey conversion, Otsu thresholding, contour finding and bounding boxes. The fiducial search starts from the list of boxes, and detection starts from the binary (inverted) image as a grid of booleans.
- The perspective transform and the warp (`getPerspectiveTransform`, `warpPerspective`) are not modelled. Only their target points are.
- `warp_image` and its random jitter are not modelled. They simulate a camera and are not part of the grading path.
- `draw_bubbles`, the pixels drawn by `cv2.circle` and `cv2.rectangle`, and the question-number text of the overlay are not modelled. They only affect appearance. The fiducial rectangles are modelled by their corners.
- Floating point is modelled as exact reals. For example, the `float32` result of the fiducial search, rounding in `nx * w`, and `np.pi` (taken as any positive real) are all treated exactly.
- PyNum.Int: exact reals hide the floating-point hazard that `int(nx * w)` falls one pixel short when `nx * w` rounds just below a whole number.
- TemplateLayout.NormalizedPixelRoundTrip: holds over exact reals only. In double precision `(886 / 1700) * 1700` is `885.9999999999999`, so for row 10 of each column (zero-based questions 10, 30, 50, 70 and 90) the detector reads `cy = 885`, not 886. Every other layout coordinate comes back exactly.
- Registration.LayoutWindowsUnclipped: holds over exact reals only. For row 10 of each column the double-precision window sits one pixel above the bubble: it is still a full 48 × 48 window, centred at y = 885.
- Selection.Decide: requires one to four ratios. The source raises `ValueError` from `np.argmax` on an empty list and `IndexError` when the first maximum is at index 4 or later and reaches the threshold. A question with five or more options whose first maximum is among the first four, or below the threshold, is handled by the source but excluded here.
- Selection.DetectSelections: requires every question to have one to four options (`OptionCountsFit`), for the reasons given for `Selection.Decide`; the source's exceptions are not modelled as error results.
- TemplateLayout.FillTargets: requires a key entry from `A`–`D` for every question (`KeyFits`). The source raises `KeyError` for any other label, and `IndexError` when the key is shorter than the layout or a question has fewer options than the letter's index.
- Fiducials.FindFiducials: stability among boxes of equal area is inherited from StableSort.Sort. It is not stated as a separate property about which of several tied boxes is kept.
- TemplateLayout.RandomAnswerKey: `random.choice` is modelled by a non-deterministic choice of a letter. It does not model the uniform distribution.
- Scoring.ScoreResults: the `IndexError` that the source raises when `detected` is shorter than the key, or when the key is shorter than 100, is a precondition, not an error result.

## Findings

| source | as written | input that shows it | evidently intended | confidence | as-written member | corrected member |
|---|---|---|---|---|---|---|
| venv/omr.py:43 | `dst_pts` are `(60,60), (W-60,60), (W-60,H-60), (60,H-60)`, the outer corners of the drawn fiducial squares, but `find_fiducials` returns the centres of those squares | the generated template itself: its squares' bounding boxes are 101 pixels on a side, so the fiducial centres are (110.5, 110.5), (1090.5, 110.5), (1090.5, 1590.5), (110.5, 1590.5), and each is mapped about 50 pixels outward on both axes; bubbles near the edges move by about 50 pixels, more than the 24-pixel sampling window reaches | map the fiducial centres to the centres of the template squares, `(110.5, 110.5), (W-109.5, 110.5), (W-109.5, H-109.5), (110.5, H-109.5)` | not executed | Rectifier.WarpTargetsMissFiducialCentres | Rectifier.CentredTargetsFixTemplate |
