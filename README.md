# Upright faces and blurred-background composites, in Dafny

This project models the two decision-and-arithmetic cores of a batch tool
that turns a folder of photographs upright and can place each one on a
blurred-background canvas of a given size:

- **Orientation** (`orientation.dfy`): `get_rotation_angle`, which takes the
  five facial keypoints of the first detected face (right eye, left eye,
  nose, right and left mouth corner) and chooses the corrective rotation
  0, 90, -90 or 180 from the direction of the eye line and from whether the
  eyes lie above the nose and the mouth. `ai/upright_faces.py` and
  `upright_faces.py` define the same function; one definition serves both.
- **ImageRotation** (`rotation.dfy`): `rotate_image` on images modelled as
  rectangular grids of generic pixels, with the clockwise, counter-clockwise
  and half-turn rotations written out pixel by pixel.
- **Upright** (`upright.dfy`): the per-image decision of `process_image`
  (skip an unreadable file, skip a file without a face, otherwise classify
  the first face and rotate), and the end-to-end property that classifying
  and rotating undoes any quarter or half turn of a photograph of an
  upright face.
- **FolderScan** (`folder_scan.dfy`): the extension filter of
  `rotate_faces_in_folder`, its `for` loop as a method that records the
  (input path, output path) pair each accepted file is processed with, and
  POSIX `os.path.join` / `os.path.basename`.
- **Compositing** (`compositing.dfy`): the size arithmetic of
  `create_blurred_background` (cover scale, centred crop box),
  `fit_image_to_size` (contain scale) and the centring offsets of
  `compose_blurred_image`.
- **Composite** (`composite.dfy`): the copy of the background and the
  in-place paste of the foreground on two-dimensional arrays.

Modelling choices:

- The angle `degrees(arctan2(dy, dx))` is replaced by `PseudoDegrees`, the
  "diamond angle" scaled by 45. It lies in (-180, 180], follows the sign
  convention of `arctan2`, equals the true angle at every multiple of 45
  degrees and is strictly increasing in the true angle, so comparing it with
  the thresholds 45, 135, -45 and -135 used by the source gives the same
  answers as comparing the true angle. `GetRotationAngle` keeps the source's
  threshold tests verbatim; lemmas restate each branch as sign and magnitude
  conditions on `dx` and `dy`.
- Scale factors are exact fractions of integers (`Fraction`), compared by
  cross-multiplication; Python's `max` and `min` return their first
  argument on a tie, and so do `Max` and `Min`. `int()` on a scaled side is
  the exact quotient truncated toward zero (`Trunc`).
- Sizes of the source images must be positive (the source divides by
  them); target sizes are any integers.
- Pixels are a type parameter. Resampling, blurring and colour conversion
  only decide pixel values, so the model keeps the sizes they produce and
  takes the blurred background and the fitted foreground as given arrays.

## Model

| member | source | states |
|---|---|---|
| `Orientation.GetRotationAngle` | ai/upright_faces.py:19-46 | the answer is always one of 0, 90, -90, 180 |
| `Orientation.PseudoDegrees` | ai/upright_faces.py:26-28 | the eye-line angle lies in (-180, 180], is negative exactly when dy < 0 and zero exactly when dy = 0 and dx >= 0, as arctan2's angle is |
| `Orientation.PseudoDegreesCompass` | upright_faces.py:27-29 | on the eight compass directions the angle is exactly 0, 45, 90, 135, 180, -135, -90, -45 degrees |
| `Orientation.LevelSectorIff` | ai/upright_faces.py:36 | abs(angle) < 45 holds exactly when dx > abs(dy), or dx = dy = 0 |
| `Orientation.DownSectorIff` | ai/upright_faces.py:41-42 | 45 <= angle <= 135 holds exactly when dy > 0 and dy >= abs(dx) |
| `Orientation.UpSectorIff` | ai/upright_faces.py:43-44 | -135 <= angle <= -45 holds exactly when dy < 0 and -dy >= abs(dx) |
| `Orientation.ReversedSectorIff` | ai/upright_faces.py:45-46 | the fallback branch is taken exactly when dx < 0 and abs(dy) < -dx, the eye line beyond 135 degrees either way |
| `Orientation.SectorsPartition` | upright_faces.py:37-47 | the four sign-and-magnitude sectors cover the plane and do not overlap |
| `Orientation.RotationAngleBySector` | upright_faces.py:37-47 | in both directions: 0 exactly for a level eye line with the mean eye height strictly above (less than) both the mean mouth height and the nose height; -90 exactly for the down sector; 90 exactly for the up sector; 180 exactly for a level line with the eyes not above both, or a reversed line |
| `Orientation.IgnoresNoseAndMouthX` | ai/upright_faces.py:21-33 | the x coordinates of the nose and the mouth corners never change the answer |
| `Orientation.TranslationInvariant` | upright_faces.py:27-34 | shifting all five keypoints by the same offset never changes the answer |
| `ImageRotation.RotateClockwise` | ai/upright_faces.py:52-53 | a clockwise quarter turn of a rectangular image is rectangular with width and height swapped |
| `ImageRotation.RotateCounterClockwise` | ai/upright_faces.py:54-55 | a counter-clockwise quarter turn of a rectangular image is rectangular with width and height swapped |
| `ImageRotation.RotateHalfTurn` | ai/upright_faces.py:56-57 | a half turn keeps the shape |
| `ImageRotation.RotateImage` | ai/upright_faces.py:49-59 | every angle other than 90, -90 and 180 (0 included) returns the image unchanged; 90 and -90 swap width and height; 180 keeps them |
| `ImageRotation.CounterClockwiseUndoesClockwise` | upright_faces.py:53-56 | rotating by 90 and then by -90 gives the original image back, pixel for pixel |
| `ImageRotation.ClockwiseUndoesCounterClockwise` | upright_faces.py:53-56 | rotating by -90 and then by 90 gives the original image back |
| `ImageRotation.HalfTurnInvolution` | upright_faces.py:57-58 | two half turns give the original image back |
| `ImageRotation.TwoClockwiseMakeHalfTurn` | upright_faces.py:53-58 | two clockwise quarter turns equal one half turn |
| `ImageRotation.RotateImageInverse` | upright_faces.py:50-60 | for every angle, rotate_image by the angle and then by its inverse (the negated angle for a quarter turn, the same angle otherwise) is the identity |
| `Upright.MovePointFollowsPixel` | ai/upright_faces.py:49-59 | the keypoint map used for turned photographs is the pixel map of `rotate_image`: for 90, -90 and 180 the pixel at row y, column x is found after rotation at the row and column the keypoint map gives for (x, y) |
| `Upright.ClassifierUndoesTurn` | upright_faces.py:37-47 | for an upright face (eye line tilted less than 45 degrees, eyes above nose and mouth) the classifier answers 0, and for the same face in a photograph turned by 90, -90 or 180 it answers exactly the inverse turn |
| `Upright.CorrectionRestoresUpright` | ai/upright_faces.py:77-78 | classifying the turned keypoints and rotating the turned photograph by the answer restores the upright photograph |
| `Upright.ProcessImage` | ai/upright_faces.py:62-79 | an unreadable file is skipped, a readable file without faces is skipped, otherwise the saved image is rectangular, the angle is one of the four, and angle 0 saves the image unchanged |
| `Upright.ProcessImageRestoresUpright` | upright_faces.py:63-79 | end to end: when the first detected face is an upright face seen in a turned photograph, whatever faces follow it, the saved image is the upright photograph |
| `FolderScan.Lower` | ai/upright_faces.py:99 | `str.lower()` keeps the length of the name |
| `FolderScan.LowerCharacters` | upright_faces.py:96 | after `str.lower()` no capital letter is left, and every character is either kept or is a capital letter replaced by its small letter |
| `FolderScan.EndsWith` | ai/upright_faces.py:99 | when `str.endswith` holds, the string is its part before the suffix followed by the suffix |
| `FolderScan.EndsWithAppended` | upright_faces.py:96 | whatever precedes a suffix, `str.endswith` holds for it |
| `FolderScan.IsImageFileName` | ai/upright_faces.py:99 | a name is accepted exactly when its last four or five characters are .jpg, .jpeg or .png in some mix of letter case |
| `FolderScan.ImageFileNameIgnoresCase` | ai/upright_faces.py:99 | a name and its lower-case form are accepted or rejected together |
| `FolderScan.AcceptsImageExtensions` | upright_faces.py:96 | any stem followed by .jpg, .jpeg or .png in any mix of letter case is accepted |
| `FolderScan.AcceptedHaveExtension` | ai/upright_faces.py:99 | conversely, an accepted name is some stem followed by .jpg, .jpeg or .png in some mix of letter case, so the dot is required and nothing follows the extension |
| `FolderScan.ImageFileNames` | ai/upright_faces.py:98-99 | no more names are processed than are listed |
| `FolderScan.ImageFileNamesMembers` | upright_faces.py:95-96 | the processed names are exactly the listed names that pass the filter |
| `FolderScan.ImageFileNamesCount` | upright_faces.py:95-96 | an accepted name is processed as often as it is listed, a rejected name never |
| `FolderScan.ImageFileNamesKeepOrder` | ai/upright_faces.py:98 | files are processed in listing order |
| `FolderScan.JoinPathParts` | ai/upright_faces.py:100-101 | `os.path.join(folder, name)` ends in the name; unless the name is absolute, it starts with the folder and puts at most one separator between them |
| `FolderScan.JoinKeepsName` | ai/upright_faces.py:101 | the output path of a listed file has that file's name as its base name |
| `FolderScan.Jobs` | upright_faces.py:95-99 | one job per accepted file |
| `FolderScan.JobsAppend` | upright_faces.py:95-99 | one more directory entry adds its job, with paths joined from the folders and its name, when it passes the filter, and nothing otherwise |
| `FolderScan.PlanFolder` | ai/upright_faces.py:98-102 | the loop calls process_image once per accepted file, in listing order, with the input and output paths joined from the folders and the file name |
| `FolderScan.JobsKeepFileNames` | upright_faces.py:97-98 | every job reads an accepted listed file from the input folder and writes a file of the same name into the output folder |
| `Compositing.Trunc` | generate_final_images.py:26-27 | int() of an exact quotient: the largest whole number not above it when it is non-negative, the smallest not below it otherwise |
| `Compositing.ScaleSide` | generate_final_images.py:26-27 | `int(side * scale)` is the exact product rounded toward zero: for a non-negative product the largest whole number not above it, otherwise the smallest not below it |
| `Compositing.Max` | generate_final_images.py:23 | the larger scale factor, the first on a tie |
| `Compositing.Min` | generate_final_images.py:62 | the smaller scale factor, the first on a tie |
| `Compositing.CoverSize` | generate_final_images.py:20-27 | the scaled image covers the target: width >= target width and height >= target height, and one of the two equals the target exactly |
| `Compositing.CoverSizeExact` | generate_final_images.py:21-27 | for non-negative targets: the side with the larger ratio becomes the target's, the other is the original side times that ratio, rounded down |
| `Compositing.CenterCropBox` | generate_final_images.py:30-34 | the box is exactly target-sized, lies inside an image at least as large as the target, and its left and right (top and bottom) margins differ by at most one pixel |
| `Compositing.CreateBlurredBackground` | generate_final_images.py:5-41 | the crop box lies inside the scaled image and the background has exactly the target size |
| `Compositing.FitImageToSize` | generate_final_images.py:44-71 | without aspect the size is the target; with aspect it fits inside the target and one side equals the target's |
| `Compositing.FitSizeExact` | generate_final_images.py:59-66 | for non-negative targets: the side with the smaller ratio becomes the target's, the other is the original side times that ratio, rounded down |
| `Compositing.ThinImageLosesASide` | generate_final_images.py:59-69 | positive sizes can give a contain side of zero: a 1000 x 1 original fitted to 100 x 100 has the size 100 x 0 |
| `Compositing.ForegroundPosition` | generate_final_images.py:101-104 | a foreground no larger than the target gets non-negative offsets and lies inside it; left and right (top and bottom) margins differ by at most one pixel |
| `Composite.CopyImage` | generate_final_images.py:99 | the copy is a new buffer of the same size holding the same pixels |
| `Composite.Paste` | generate_final_images.py:107 | canvas pixels under the pasted foreground take the foreground's pixels; every other canvas pixel is unchanged; the part falling outside the canvas is dropped |
| `Composite.ComposeBlurredImage` | generate_final_images.py:74-110 | given a target-sized background (the size `create_blurred_background` crops to) and a foreground of the size `fit_image_to_size` makes from the original, the composite has the target size; pixels in the centred foreground rectangle come from the foreground, all others from the background; every foreground pixel appears, none is clipped |

## Left out

- Face detection (`FaceAnalysis`, `prepare`, `face_app.get`) is a pretrained external model: its keypoints are an input of the model, and an empty list of faces is the "no face" case.
- Reading and writing files, `os.makedirs`, `os.listdir` (its listing is an input), logging with `print`, and the command-line entry points are not modelled. The `ai/upright_faces.py` entry point reads `sys.argv[4]` whenever there are at least four arguments, so a call with only a width fails there; this is not modelled.
- Resampling (LANCZOS), Gaussian blur and BGR/RGB conversion decide only pixel values: the model keeps the sizes they produce and takes the blurred background and the fitted foreground as given arrays. Converting between the rotated image and the PIL image that `compose_blurred_image` receives is not modelled.
- Floating point is not modelled. Arithmetic is exact, so the sizes are the exact-arithmetic promise; in floating point `int(w * (t / w))` can come out one below `t` (for instance `49 * (1 / 49)` is below 1), which makes a cover side one pixel short of the target and a crop offset -1 that PIL pads.
- The zero-size case, where the source divides by zero, is excluded by requiring positive source sizes. PIL's `resize` refuses a size with a side that is not positive, and the source does not catch that error, so the whole folder run stops at that image. This is not modelled: the sizes are computed and the composite carries on. Such sizes come from zero or negative targets, and also from positive inputs with an extreme aspect ratio: a 1000 x 1 original fitted to 100 x 100 gets the contain size 100 x 0 (`int(1 * 0.1) == 0`, `Compositing.ThinImageLosesASide`).
- `FolderScan.IsImageFileName`: `str.lower()` is modelled on ASCII letters only; Unicode case mapping is not.
- `FolderScan.JoinPath` and `FolderScan.BaseName` follow POSIX `os.path`; other platforms' separators are not modelled.
- `Composite.Paste` requires the canvas and the foreground to be different buffers; the source always pastes into a fresh copy, and pasting a buffer onto itself is not modelled.
- `Upright.ProcessImage` models the rotate-and-save branch of `process_image`; its composite branch in `ai/upright_faces.py:80-84` is `Composite.ComposeBlurredImage` applied to the rotated image, and the hand-over between the two is not modelled.
