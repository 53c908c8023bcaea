# Disturbance detection: date windows and NDVI rescaling

This project is a Dafny model of two pure pieces of `DetectDisturbance.py`. That script computes the mean NDVI of Sentinel-2 composites per hexagon of an area of interest, for two windows 52 weeks apart, and writes both means as columns `{year}_{month}_mean` of the output file. Comparing the two columns is left to the user.

1. **Date-window builder.** `daterange` and the anchor arithmetic of `main` turn the `--start` date into two catalog query strings of the form `"yyyy-mm-dd/yyyy-mm-dd"`:
   - the analysis window, which ends on the anchor;
   - the reference window, which ends 52 weeks (364 days) earlier.

   Each window starts 90 days before its end date. The model covers:
   - the proleptic Gregorian calendar, with Python's day ordinals (`calendar.dfy`);
   - `strftime("%Y-%m-%d")`, whose output has the full-date form of section 5.6 of RFC 3339, and `strptime(..., "%Y-%m-%d")`, which also accepts unpadded months and days, and space-padded days, such as "2023-9-9" and "2023-09- 9" (`iso_date.dfy`);
   - the windows themselves (`date_windows.dfy`).

2. **Per-pixel NDVI rescaling.** `NDVI` reads band 0 as red and band 1 as near-infrared (NIR). It computes a nodata mask (red is 0 or NIR is 0) and the index `(NIR - red) / (NIR + red)`, then rescales the index to `10000 + 10000 * index` and casts it to `uint16`. The model (`ndvi.dfy`) works pointwise over bands flattened to sequences of pixels, with exact real arithmetic.

`wrappers.dfy` holds the shared `Option` and `Result` types.

The model follows what the code does, including where that differs from its help text and comments:
- The window width is hard-coded to 90 days at DetectDisturbance.py:124. The `--buffer` help text describes it as the search window, but the value is passed to `noTiff` and never read. The model therefore takes `buffer` as a parameter that has no effect.
- The lag is hard-coded to `timedelta(weeks=52)`.
- The `uint16` cast truncates toward zero rather than rounding.
- The sentinel 65535 is never written: see Findings.

Errors are modelled as values:
- `strptime` raising ValueError becomes `Malformed`.
- A subtraction that Python rejects with OverflowError (the result would fall before 0001-01-01) becomes `OutOfRange`.
- A pixel whose value IEEE arithmetic decides, and exact arithmetic cannot, becomes `None`. This covers a zero denominator, and a value that does not fit in `uint16`.

## Model

| member | source | states |
|---|---|---|
| Calendar.Ordinal | DetectDisturbance.py:124 | Python's `toordinal`: the day number of a date exceeds the days of all earlier years, counted with the Gregorian leap rule, by at least 1 and at most the length of the date's own year. OrdinalMonotone, OrdinalInjective and OrdinalOrder relate it to calendar order. |
| Calendar.PrevDay | DetectDisturbance.py:124 | The day before a valid date (other than 0001-01-01) is a valid date whose ordinal is exactly one lower, across month, year and 29 February boundaries. |
| Calendar.StepBack | DetectDisturbance.py:124 | Stepping back n days from a valid date gives a valid date whose ordinal is exactly n lower. |
| Calendar.SubtractDays | DetectDisturbance.py:124 | `date - timedelta(days=n)` succeeds exactly when n is below the date's ordinal (otherwise OverflowError). On success the result is a valid date whose ordinal is n lower. |
| Calendar.SubtractDaysUnique | DetectDisturbance.py:124 | Any valid date whose ordinal is n below d's is the result of subtracting n days from d. This makes the subtraction Python's `fromordinal(toordinal() - n)`. |
| Calendar.OrdinalMonotone | DetectDisturbance.py:124 | Day ordinals are strictly increasing in calendar order, with leap years counted by the Gregorian rule. |
| Calendar.OrdinalOrder | DetectDisturbance.py:124 | A date with a lower ordinal comes earlier in calendar order. |
| Calendar.OrdinalInjective | DetectDisturbance.py:124 | Two valid dates with the same ordinal are the same date. |
| Calendar.DaysBeforeNextYear | DetectDisturbance.py:124 | Successive years start 365 or 366 days apart, 366 exactly after a Gregorian leap year. |
| IsoDate.Format | DetectDisturbance.py:124-126 | `strftime("%Y-%m-%d")` writes ten characters: four year digits, a dash, two month digits, a dash and two day digits. ParseFormat and FormatParse make it the inverse of `strptime` on such texts. |
| IsoDate.Parse | DetectDisturbance.py:208 | `strptime` returns only valid Gregorian dates, and None where it raises ValueError. ParseExactly, ParseFormat and FormatParse fix which texts read as which date. |
| IsoDate.ParseExactly | DetectDisturbance.py:208 | `strptime` with `%Y-%m-%d` reads a valid date d from a text exactly when the text is one of d's spellings: four year digits, the month as "mm" or (below 10) "m", the day as "dd" or (below 10) "d" or " d", and nothing after. Every other text, including one with trailing characters or an impossible date such as 29 February 2023, is rejected. |
| IsoDate.ParseExamples | DetectDisturbance.py:208 | "2023-9-9" and "2023-09- 9" both read as 9 September 2023, and "2023-09-09 " with a trailing space is rejected. |
| IsoDate.ParseFormat | DetectDisturbance.py:124-128 | Reading back with `strptime` what `strftime("%Y-%m-%d")` wrote gives the same date, for every valid date. |
| IsoDate.FormatParse | DetectDisturbance.py:208 | A ten-character digits-and-dashes text that `strptime` accepts is exactly the `strftime` spelling of the date it reads. Formatting is therefore the one canonical spelling of each date. |
| DateWindows.DateRange | DetectDisturbance.py:119-130 | `daterange(d)` fails only when d is within 90 days of 0001-01-01. Otherwise it is a 21-character text with `/` at index 10. Its halves read back as d minus 90 days and d. |
| DateWindows.SpansExactly | DetectDisturbance.py:124-128 | For valid dates a and b, a range text reads back canonically to a and b exactly when it is the formatting of a, a slash, and the formatting of b. The DateRange contract therefore fixes its output completely. |
| DateWindows.AnchorWindows | DetectDisturbance.py:208-214 | A malformed `--start` fails with Malformed. A parsed anchor succeeds exactly when its ordinal exceeds 454. The analysis window then spans anchor-90 to anchor, and the reference window spans anchor-454 to anchor-364, whatever `buffer` is. |
| DateWindows.WindowsOrdered | DetectDisturbance.py:208-214 | The reference window's last day comes before the analysis window's first day in calendar order, so the two windows never overlap. |
| DateWindows.AnchorSpellings | DetectDisturbance.py:208-214 | Every spelling of an anchor that `strptime` accepts, such as "2023-9-9", gives the same two windows as its `yyyy-mm-dd` spelling. |
| DateWindows.BufferIgnored | DetectDisturbance.py:178-191 | The windows do not depend on the `--buffer` value. In the source `buffer` reaches only `noTiff`, which never reads it, so in the model this holds by construction of AnchorWindows. |
| DateWindows.DateRangeFrom | DetectDisturbance.py:124-128 | The window of d is the formatting of the date 90 days earlier, a slash, and the formatting of d. |
| DateWindows.DateRangeExample | DetectDisturbance.py:119-130 | Anchor 2023-09-09 gives "2023-06-11/2023-09-09". |
| DateWindows.DateRangeLeapExample | DetectDisturbance.py:119-130 | Anchor 2024-03-01 gives "2023-12-02/2024-03-01", across 29 February and a year boundary. |
| DateWindows.DateRangeEarliest | DetectDisturbance.py:124 | 0001-04-01 is the earliest anchor with a window. 0001-03-31 overflows. |
| DateWindows.AnchorWindowsFrom | DetectDisturbance.py:208-214 | Both windows are written with the dates 364, 454 and 90 days before the anchor. |
| DateWindows.AnchorWindowsExample | DetectDisturbance.py:208-214 | `--start 2023-09-09` queries "2022-06-12/2022-09-10" (reference) and "2023-06-11/2023-09-09" (analysis). |
| DateWindows.AnchorWindowsMalformed | DetectDisturbance.py:208 | "2023-02-29", "2023-9-9x" and "2023-13-01" are rejected as malformed. |
| Ndvi.Trunc | DetectDisturbance.py:114 | The integer cast drops the fractional part toward zero. It is not rounding. |
| Ndvi.Rescale | DetectDisturbance.py:112-114 | Non-negative bands that are not both 0 give a value in [0, 20000]. Two positive bands give a value in [0, 19999]. A value exists only where the denominator is non-zero. |
| Ndvi.RescaleExact | DetectDisturbance.py:112-114 | For positive bands the output is the integer k with k(red+NIR) <= 20000 NIR < (k+1)(red+NIR), i.e. the rescaled index truncated. |
| Ndvi.RescaleMonotone | DetectDisturbance.py:112-114 | For fixed red, more NIR never lowers the output. |
| Ndvi.RescaleExamples | DetectDisturbance.py:112-114 | (red 100, NIR 300) gives 15000 and (red 300, NIR 100) gives 5000. |
| Ndvi.RescaleEdges | DetectDisturbance.py:110-116 | Masked pixels keep their arithmetic value: red 0 with NIR > 0 gives 20000, and NIR 0 with red > 0 gives 0. Both 0 is left undetermined (0/0). |
| Ndvi.NodataMask | DetectDisturbance.py:108-110 | The mask has one entry per pixel, true exactly where red or NIR is 0. |
| Ndvi.RescaleBand | DetectDisturbance.py:112-114 | The rescaling applies pixel by pixel: one output per pixel, each determined by that pixel's red and NIR alone. |
| Ndvi.Ndvi | DetectDisturbance.py:98-117 | `NDVI` as written returns a single band with one value per pixel. Band 0 is red and band 1 is NIR. Masked pixels are 20000 or 0, not 65535. No pixel with non-negative bands, not both 0, carries the sentinel. |
| Ndvi.ApplyNoData | DetectDisturbance.py:115 | Boolean-mask assignment puts 65535 where the mask is true and leaves every other pixel unchanged. |
| Ndvi.NdviCorrected | DetectDisturbance.py:115 | With the intended assignment, masked pixels are 65535 and the other pixels keep their rescaled value. For non-negative bands, 65535 appears exactly on the masked pixels. |
| Ndvi.SentinelNeverWritten | DetectDisturbance.py:115 | On red (0, 300) and NIR (100, 0), both pixels are masked. The code as written returns 20000 and 0, and the corrected version returns 65535 twice. |

## Findings

| source | as written | input that shows it | evidently intended | confidence | as-written member | corrected member |
|---|---|---|---|---|---|---|
| DetectDisturbance.py:115 | `ndvi[nodata] ==65535` is a comparison whose result is discarded, so the nodata mask never changes the output | red = 0, NIR = 100 gives 20000. red = 300, NIR = 0 gives 0. Both are masked pixels that should be 65535 | `ndvi[nodata] = 65535`, so masked pixels carry the nodata value that `zonal_stats(..., nodata=65535)` skips | high; not executed | Ndvi.Ndvi (exhibited by Ndvi.SentinelNeverWritten) | Ndvi.NdviCorrected |

Nothing after the index step is modelled, so no other member consumes either version. In `main` the raster comes from `mosaic`, which turns every value that is not positive into NaN (DetectDisturbance.py:149) before a median that skips NaN. No pixel reaching `NDVI` there is 0, so the mask is all false. The corrected `=` alone would therefore still not put 65535 on the real nodata pixels, which are NaN.

## Left out

- Command-line parsing (`GetCmdArgs`), the STAC search (`searchSTAC`), hexagon generation (`getHexagons`), compositing and temporal median (`mosaic`), and zonal statistics (`zonestats`) are left out. They are wrappers over argparse, a remote catalog, h3/tobler, stackstac/dask and rasterstats, whose behaviour is not visible here.
- File I/O, the temporary directory, and the progress and `print` output of `main` are left out.
- The per-column naming `{year}_{month}_mean` (DetectDisturbance.py:231, 237) is not modelled.
- Mosaic's rule that values <= 0 become NaN (DetectDisturbance.py:149) is left out with the rest of `mosaic`. As a result the model's NDVI inputs are plain reals and never NaN.
- IEEE-754 details are left out: pixel arithmetic is exact over the reals. The model leaves undetermined (`None`) every pixel whose outcome depends on NaN or infinity (a zero denominator), or on a float-to-`uint16` cast out of range. Floating-point rounding of the division is not modelled. `np.seterr` (line 105) only silences warnings.
- Ndvi.Ndvi: the raster is taken as bands of flattened pixels, and band 0 and band 1 must have the same length, as numpy's array shape guarantees. Bands past the second are ignored, as in the source.
- IsoDate.Format: years below 1000 are written with four digits. On some platforms and older Python versions, the C library's `%Y` prints them unpadded. The windows of such years are therefore only as faithful as that choice.
- IsoDate.Parse: only ASCII digits are modelled. Python's `\d` also accepts other Unicode decimal digits.
- `strptime` returns a `datetime` at midnight. The time of day never changes, so the model uses the date alone.
- The upper OverflowError (beyond 9999-12-31) is not modelled: the windows only subtract days, so it cannot arise.
